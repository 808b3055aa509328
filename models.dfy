/**
 * The result envelope `HttpResultModel<T>` of Models/BaseHttpResultModel.cs: four settable
 * properties, `Result` initialised to true, and `PerformResult`, which assigns all four.
 * A `null` string or model is `None`.
 */
module Models {
  import opened Wrappers

  /** The value held by an envelope's four properties at one moment. */
  datatype Envelope<T> = Envelope(
    result: bool,
    errorMessage: Option<string>,
    businessMessage: Option<string>,
    model: Option<T>)

  /**
   * The shape of every envelope that `PerformRequest` returns: a failed request carries no
   * model, and an error message is present only on failure.
   */
  ghost predicate WellFormed<T>(e: Envelope<T>)
  {
    (!e.result ==> e.model.None?) && (e.errorMessage.Some? ==> !e.result)
  }

  class HttpResultModel<T> {
    var result: bool
    var errorMessage: Option<string>
    var businessMessage: Option<string>
    var model: Option<T>

    function View(): Envelope<T>
      reads this
    {
      Envelope(result, errorMessage, businessMessage, model)
    }

    /** `Result` starts true; the strings and the model start null. */
    constructor ()
      ensures result && errorMessage.None? && businessMessage.None? && model.None?
    {
      result := true;
      errorMessage := None;
      businessMessage := None;
      model := None;
    }

    /** Overwrites all four properties, whatever they held before. */
    method PerformResult(result: bool, errorMessage: Option<string>, businessMessage: Option<string>, model: Option<T>)
      modifies this
      ensures View() == Envelope(result, errorMessage, businessMessage, model)
    {
      this.result := result;
      this.errorMessage := errorMessage;
      this.businessMessage := businessMessage;
      this.model := model;
    }
  }
}
