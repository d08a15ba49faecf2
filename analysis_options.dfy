/**
 * The three request toggles held in the `analysisOptions` state cell and
 * flipped by `handleAnalysisOptionChange`.
 */
module AnalysisOptions {

  datatype OptionName = Sentiment | PoliticalBias | Clickbait

  /** The closed record `{ sentiment, political_bias, clickbait }`. */
  datatype Options = Options(sentiment: bool, politicalBias: bool, clickbait: bool)

  /** `options[name]` */
  function Get(o: Options, name: OptionName): bool
  {
    match name
    case Sentiment => o.sentiment
    case PoliticalBias => o.politicalBias
    case Clickbait => o.clickbait
  }

  /** The initial value of the state cell: every sub-analysis requested. */
  function Defaults(): (o: Options)
    ensures forall name :: Get(o, name)
  {
    Options(true, true, true)
  }

  /** `{ ...prev, [name]: !prev[name] }`: flips the named flag and only that one. */
  function Toggle(o: Options, name: OptionName): (r: Options)
    ensures Get(r, name) == !Get(o, name)
    ensures forall other :: other != name ==> Get(r, other) == Get(o, other)
  {
    match name
    case Sentiment => o.(sentiment := !o.sentiment)
    case PoliticalBias => o.(politicalBias := !o.politicalBias)
    case Clickbait => o.(clickbait := !o.clickbait)
  }

  /** Toggling the same option twice restores the original options. */
  lemma ToggleTwice(o: Options, name: OptionName)
    ensures Toggle(Toggle(o, name), name) == o
  {
  }

  /** Toggles of different options do not interfere: their order is irrelevant. */
  lemma ToggleCommutes(o: Options, a: OptionName, b: OptionName)
    ensures Toggle(Toggle(o, a), b) == Toggle(Toggle(o, b), a)
  {
  }
}
