/**
 * The analysis session of the `App` component: its state cells as fields of
 * one object and its event handlers as methods that update them. A submission
 * is two atomic steps: `Submit` (the click on the submit button and the
 * synchronous start of `handleSubmit`) and `Complete` (the settled network
 * outcome, the `catch` and the `finally`).
 */
module Session {
  import opened Wrappers
  import opened TextStats
  import opened AnalysisOptions
  import opened History

  /** How the request settled: a 2xx response with its decoded body, a
    * response whose `ok` is false, or an exception carrying a message
    * (network failure, JSON decoding failure). */
  datatype Outcome = Ok(data: AnalysisData) | HttpNotOk | Thrown(message: string)

  /** What the pending `handleSubmit` call captured when it started. */
  datatype Request = Request(text: string, options: Options)

  /** The message of the error thrown for a response that is not ok. */
  const FailedMessage: string := "Failed to analyze text"

  /** The clear button's `disabled={!text.trim()}`, negated: the text has
    * at least one word. */
  function ClearEnabled(text: string): (r: bool)
    ensures r <==> RunCount(text) > 0
  {
    TrimEmptyIffBlank(text);
    WordCountZeroIffBlank(text);
    Trim(text) != []
  }

  /** The submit button's `disabled={loading || !text.trim()}`, negated:
    * nothing is in flight and the text has at least one word. */
  function SubmitEnabled(loading: bool, text: string): (r: bool)
    ensures r <==> !loading && RunCount(text) > 0
  {
    !loading && ClearEnabled(text)
  }

  /** Submission is possible exactly when nothing is in flight and the text
    * holds a character that is not whitespace. */
  lemma SubmitEnabledIffNonBlank(loading: bool, text: string)
    ensures SubmitEnabled(loading, text) <==> !loading && exists i :: 0 <= i < |text| && !IsSpace(text[i])
  {
    TrimEmptyIffBlank(text);
  }

  class App {
    var text: string
    var charCount: nat
    var wordCount: nat
    var loading: bool
    var error: Option<string>
    var result: Option<AnalysisData>
    var options: Options
    var history: seq<Entry>
    /** The request a pending submission captured, present exactly while loading. */
    var inFlight: Option<Request>

    /** The counters describe the text; at most one of result and error is
      * shown, and neither while a request is in flight. */
    ghost predicate Valid()
      reads this
    {
      charCount == |text| && wordCount == RunCount(text) &&
      (loading <==> inFlight.Some?) &&
      (loading ==> result == None && error == None) &&
      !(result.Some? && error.Some?)
    }

    constructor ()
      ensures Valid()
      ensures text == [] && charCount == 0 && wordCount == 0
      ensures !loading && error == None && result == None && inFlight == None
      ensures options == Defaults() && history == []
    {
      text, charCount, wordCount := [], 0, 0;
      loading, error, result, inFlight := false, None, None, None;
      options, history := Defaults(), [];
    }

    /** `handleTextChange`: stores the raw text and its two counters. */
    method SetText(raw: string)
      requires Valid()
      modifies this`text, this`charCount, this`wordCount
      ensures Valid()
      ensures text == raw && charCount == |raw| && wordCount == RunCount(raw)
    {
      var words := WordCount(raw);
      text, charCount, wordCount := raw, |raw|, words;
    }

    /** `handleAnalysisOptionChange`: flips one flag, leaving the other two. */
    method ToggleOption(name: OptionName)
      requires Valid()
      modifies this`options
      ensures Valid()
      ensures options == Toggle(old(options), name)
      ensures Get(options, name) == !Get(old(options), name)
      ensures forall other :: other != name ==> Get(options, other) == Get(old(options), other)
    {
      options := Toggle(options, name);
    }

    /** A click on the submit button: ignored while it is disabled; otherwise
      * the request is captured, loading starts and the old result and error
      * are cleared. */
    method Submit() returns (started: bool)
      requires Valid()
      modifies this`loading, this`error, this`result, this`inFlight
      ensures Valid()
      ensures started <==> SubmitEnabled(old(loading), text)
      ensures started ==> loading && error == None && result == None &&
                          inFlight == Some(Request(text, options))
      ensures !started ==> loading == old(loading) && error == old(error) &&
                           result == old(result) && inFlight == old(inFlight)
    {
      started := SubmitEnabled(loading, text);
      if started {
        loading := true;
        error := None;
        result := None;
        inFlight := Some(Request(text, options));
      }
    }

    /** The rest of `handleSubmit` once the request settles at clock reading
      * `now` (formatted as `stamp`). Success shows the data and prepends one
      * entry previewing the submitted text; a failure shows the error and
      * leaves the ledger alone; loading ends either way. */
    method Complete(outcome: Outcome, now: int, stamp: string)
      requires Valid() && loading
      modifies this`loading, this`error, this`result, this`history, this`inFlight
      ensures Valid() && !loading && inFlight == None
      ensures outcome.Ok? ==>
        result == Some(outcome.data) && error == None &&
        history == [Entry(now, Preview(old(inFlight).value.text), outcome.data, stamp)] + old(history)
      ensures outcome.HttpNotOk? ==>
        error == Some(FailedMessage) && result == None && history == old(history)
      ensures outcome.Thrown? ==>
        error == Some(outcome.message) && result == None && history == old(history)
    {
      var request := inFlight.value;
      match outcome {
        case Ok(data) =>
          result := Some(data);
          history := Record(history, Entry(now, Preview(request.text), data, stamp));
        case HttpNotOk =>
          error := Some(FailedMessage);
        case Thrown(message) =>
          error := Some(message);
      }
      loading := false;
      inFlight := None;
    }

    /** A click on the clear button: ignored while it is disabled (blank
      * text); otherwise `handleClear` empties the input and the shown result
      * and error. History, options and a pending request are untouched. */
    method Clear() returns (cleared: bool)
      requires Valid()
      modifies this`text, this`result, this`error, this`charCount, this`wordCount
      ensures Valid()
      ensures cleared <==> ClearEnabled(old(text))
      ensures cleared ==>
        text == [] && result == None && error == None && charCount == 0 && wordCount == 0
      ensures !cleared ==>
        text == old(text) && result == old(result) && error == old(error) &&
        charCount == old(charCount) && wordCount == old(wordCount)
    {
      cleared := ClearEnabled(text);
      if cleared {
        text := [];
        result := None;
        error := None;
        charCount := 0;
        wordCount := 0;
      }
    }

    /** `handleDeleteHistory` */
    method DeleteHistory(id: int)
      requires Valid()
      modifies this`history
      ensures Valid()
      ensures history == DeleteById(old(history), id)
      ensures forall e :: e in history ==> e.id != id
    {
      history := DeleteById(history, id);
    }

    /** `handleClearHistory` */
    method ClearHistory()
      requires Valid()
      modifies this`history
      ensures Valid()
      ensures history == []
    {
      history := [];
    }
  }
}
