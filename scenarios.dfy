/**
 * Complete sessions driven through the handlers, for any article of at most
 * 100 characters that starts with a word (such as
 * "Breaking: Scientists discover...").
 */
module Scenarios {
  import opened Wrappers
  import opened TextStats
  import opened AnalysisOptions
  import opened History
  import opened Session

  predicate ShortArticle(article: string)
  {
    0 < |article| <= PreviewLength && !IsSpace(article[0])
  }

  /** Political bias switched off, then a successful "Fake News" verdict:
    * the request carried the text and the other two options, the verdict is
    * shown, and the ledger holds one entry previewing the whole text. */
  method SuccessfulAnalysis(article: string) returns (app: App, sent: Request)
    requires ShortArticle(article)
    ensures sent == Request(article, Options(true, false, true))
    ensures app.result == Some(AnalysisData("Fake News", 87.5)) && app.error == None && !app.loading
    ensures |app.history| == 1 && app.history[0].id == 1000
    ensures app.history[0].preview == article + "..."
    ensures app.history[0].result == AnalysisData("Fake News", 87.5)
  {
    app := new App();
    app.SetText(article);
    app.ToggleOption(PoliticalBias);
    var started := app.Submit();
    assert started;
    sent := app.inFlight.value;
    app.Complete(Ok(AnalysisData("Fake News", 87.5)), 1000, "1/1/1970, 12:00:01 AM");
  }

  /** A response with status 500: the fixed message is shown, no result and
    * no history entry. */
  method FailedAnalysis(article: string) returns (app: App)
    requires ShortArticle(article)
    ensures app.error == Some("Failed to analyze text") && app.result == None
    ensures app.history == [] && !app.loading
  {
    app := new App();
    app.SetText(article);
    var started := app.Submit();
    assert started;
    app.Complete(HttpNotOk, 1000, "1/1/1970, 12:00:01 AM");
  }

  /** Clearing the input while a request is in flight does not stop its
    * response from being recorded, with the preview of the text that was sent. */
  method ClearDuringFlight(article: string) returns (app: App)
    requires ShortArticle(article)
    ensures app.text == [] && app.charCount == 0
    ensures app.result == Some(AnalysisData("Real News", 12.0))
    ensures |app.history| == 1 && app.history[0].preview == article + "..."
    ensures app.history[0].result == AnalysisData("Real News", 12.0)
  {
    app := new App();
    app.SetText(article);
    var started := app.Submit();
    assert started;
    var cleared := app.Clear();
    assert cleared;
    app.Complete(Ok(AnalysisData("Real News", 12.0)), 1000, "1/1/1970, 12:00:01 AM");
  }
}
