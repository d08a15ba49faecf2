/**
 * The session history ledger: newest-first entries, prepended on every
 * successful analysis, deleted one id at a time or all at once.
 */
module History {

  /** The decoded body of a successful response, which the component stores
    * as `result` without inspecting it. Only the two fields the page always
    * shows (`data.prediction`, `data.confidence`) are kept. */
  datatype AnalysisData = AnalysisData(prediction: string, confidence: real)

  /** `{ id, text, result, timestamp }`: `id` is the clock reading in
    * milliseconds, `preview` the truncated text, `timestamp` the formatted time. */
  datatype Entry = Entry(id: int, preview: string, result: AnalysisData, timestamp: string)

  const PreviewLength: nat := 100
  const Ellipsis: string := "..."

  /** `text.substring(0, 100) + '...'`: at most the first 100 characters of the
    * text, always followed by the ellipsis, even when nothing was cut. */
  function Preview(text: string): (r: string)
    ensures |r| == (if |text| < PreviewLength then |text| else PreviewLength) + |Ellipsis|
    ensures r[|r| - |Ellipsis|..] == Ellipsis
    ensures r[..|r| - |Ellipsis|] <= text
    ensures |text| <= PreviewLength ==> r == text + Ellipsis
  {
    var n := if |text| < PreviewLength then |text| else PreviewLength;
    assert |text| <= PreviewLength ==> text[..n] == text;
    text[..n] + Ellipsis
  }

  /** `[entry, ...prev]` */
  function Record(h: seq<Entry>, e: Entry): (r: seq<Entry>)
    ensures |r| == |h| + 1 && r[0] == e && r[1..] == h
  {
    [e] + h
  }

  /** `prev.filter(item => item.id !== id)` */
  function DeleteById(h: seq<Entry>, id: int): (r: seq<Entry>)
    ensures |r| == |h| - CountId(h, id)
    ensures forall i :: 0 <= i < |r| ==> r[i].id != id
    ensures (forall i :: 0 <= i < |h| ==> h[i].id != id) ==> r == h
  {
    if h == [] then []
    else (if h[0].id == id then [] else [h[0]]) + DeleteById(h[1..], id)
  }

  /** How many entries carry the id. */
  function CountId(h: seq<Entry>, id: int): (n: nat)
    ensures n <= |h|
  {
    if h == [] then 0
    else (if h[0].id == id then 1 else 0) + CountId(h[1..], id)
  }

  /** No entry carries the id exactly when the count is zero. */
  lemma {:induction false} CountZeroIffAbsent(h: seq<Entry>, id: int)
    ensures CountId(h, id) == 0 <==> forall i :: 0 <= i < |h| ==> h[i].id != id
    decreases |h|
  {
    if h != [] {
      CountZeroIffAbsent(h[1..], id);
      assert forall i :: 1 <= i < |h| ==> h[i] == h[1..][i - 1];
    }
  }

  /** Deletion removes exactly the entries with that id: an entry is in the
    * result if and only if it was in the ledger and has a different id. */
  lemma {:induction false} DeleteMembership(h: seq<Entry>, id: int)
    ensures forall e :: e in DeleteById(h, id) <==> e in h && e.id != id
    decreases |h|
  {
    if h != [] {
      DeleteMembership(h[1..], id);
      assert forall e :: e in h <==> e == h[0] || e in h[1..];
    }
  }

  /** Ids strictly decrease from the newest entry to the oldest. */
  ghost predicate Descending(h: seq<Entry>)
  {
    forall i, j :: 0 <= i < j < |h| ==> h[i].id > h[j].id
  }

  ghost predicate DistinctIds(h: seq<Entry>)
  {
    forall i, j :: 0 <= i < j < |h| ==> h[i].id != h[j].id
  }

  /** Deletion acts on each part of the ledger independently, so the entries
    * that remain keep their relative order. */
  lemma {:induction false} DeleteConcat(a: seq<Entry>, b: seq<Entry>, id: int)
    ensures DeleteById(a + b, id) == DeleteById(a, id) + DeleteById(b, id)
    decreases |a|
  {
    if a == [] {
      assert a + b == b;
    } else {
      assert (a + b)[1..] == a[1..] + b;
      DeleteConcat(a[1..], b, id);
    }
  }

  /** Deleting an id a second time changes nothing. */
  lemma DeleteIdempotent(h: seq<Entry>, id: int)
    ensures DeleteById(DeleteById(h, id), id) == DeleteById(h, id)
  {
  }

  lemma {:induction false} CountAtMostOne(h: seq<Entry>, id: int)
    requires DistinctIds(h)
    ensures CountId(h, id) <= 1
    decreases |h|
  {
    if h != [] {
      CountAtMostOne(h[1..], id);
      CountZeroIffAbsent(h[1..], id);
      if h[0].id == id {
        assert forall i :: 0 <= i < |h[1..]| ==> h[1..][i].id != id by {
          forall i | 0 <= i < |h[1..]| ensures h[1..][i].id != id {
            assert h[1..][i] == h[i + 1];
          }
        }
      }
    }
  }

  /** With distinct ids, deleting a present id removes exactly one entry
    * and no entry with that id remains. */
  lemma DeleteOne(h: seq<Entry>, id: int)
    requires DistinctIds(h)
    requires exists i :: 0 <= i < |h| && h[i].id == id
    ensures |DeleteById(h, id)| == |h| - 1
    ensures forall e :: e in DeleteById(h, id) ==> e.id != id
  {
    // Explanatory: the count of the id is at least one (present) and at most one (distinct).
    CountAtMostOne(h, id);
    CountZeroIffAbsent(h, id);
  }

  /** A clock reading later than the newest id keeps the ledger descending. */
  lemma RecordKeepsDescending(h: seq<Entry>, e: Entry)
    requires Descending(h)
    requires h == [] || e.id > h[0].id
    ensures Descending(Record(h, e))
  {
    // Explanatory: the new head is above the old head, which is above every older entry.
    var r := Record(h, e);
    forall i, j | 0 <= i < j < |r| ensures r[i].id > r[j].id {
      if i == 0 && j > 1 {
        assert r[j] == h[j - 1];
      }
    }
  }

  /** Deletion keeps the ledger descending, and keeps every id below a bound
    * that all ids were already below. */
  lemma {:induction false} DeleteKeepsDescendingBelow(h: seq<Entry>, id: int, bound: int)
    requires Descending(h)
    requires forall i :: 0 <= i < |h| ==> h[i].id < bound
    ensures Descending(DeleteById(h, id))
    ensures forall k :: 0 <= k < |DeleteById(h, id)| ==> DeleteById(h, id)[k].id < bound
    decreases |h|
  {
    if h != [] {
      DeleteKeepsDescendingBelow(h[1..], id, h[0].id);
    }
  }

  lemma DeleteKeepsDescending(h: seq<Entry>, id: int)
    requires Descending(h)
    ensures Descending(DeleteById(h, id))
  {
    if h != [] {
      DeleteKeepsDescendingBelow(h, id, h[0].id + 1);
    }
  }
}
