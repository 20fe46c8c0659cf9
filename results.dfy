/** The success/failure envelopes of the service layer: `ClientFactoryResult`
    (what a client factory returns), `ServiceResult` (what a service returns)
    and `MaybeResult` (a lookup that may find nothing), with the helpers that
    build and convert them. */
module Envelopes {
  import opened Common

  /** `{success: true, client} | {success: false, error}` */
  datatype ClientFactoryResult<C> = ClientOk(client: C) | ClientFailed(error: string) {
    predicate IsSuccess() { ClientOk? }
  }

  /** `{success: true, data} | {success: false, error}` */
  datatype ServiceResult<T> = ServiceOk(data: T) | ServiceFailed(error: string) {
    predicate IsSuccess() { ServiceOk? }
  }

  /** `({found: true} & T) | {found: false, error?}` */
  datatype MaybeResult<T> = Found(value: T) | NotFound(error: Option<string>)

  /** A JavaScript value of unknown type, as far as these helpers look at it:
      a string, or anything else (number, object, null, undefined, ...). */
  datatype Unknown = JsString(s: string) | JsOther

  function Success<C>(client: C): (r: ClientFactoryResult<C>)
    ensures r.IsSuccess() && r.client == client
  {
    ClientOk(client)
  }

  function Failure<C>(error: string): (r: ClientFactoryResult<C>)
    ensures !r.IsSuccess() && r.error == error
  {
    ClientFailed(error)
  }

  /** The characters JavaScript's `String.prototype.trim` strips: WhiteSpace
      and LineTerminator of ECMA-262. */
  predicate IsJsSpace(c: char) {
    c == '\t' || c == '\n' || c == '\U{B}' || c == '\U{C}' || c == '\r' || c == ' '
    || c == '\U{A0}' || c == '\U{1680}' || ('\U{2000}' <= c <= '\U{200A}')
    || c == '\U{2028}' || c == '\U{2029}' || c == '\U{202F}' || c == '\U{205F}'
    || c == '\U{3000}' || c == '\U{FEFF}'
  }

  function TrimStart(s: string): string {
    if |s| > 0 && IsJsSpace(s[0]) then TrimStart(s[1..]) else s
  }

  function TrimEnd(s: string): string {
    if |s| > 0 && IsJsSpace(s[|s| - 1]) then TrimEnd(s[..|s| - 1]) else s
  }

  function Trim(s: string): string {
    TrimEnd(TrimStart(s))
  }

  predicate AllSpace(s: string) {
    forall i :: 0 <= i < |s| ==> IsJsSpace(s[i])
  }

  lemma {:induction false} TrimStartEmpty(s: string)
    ensures TrimStart(s) == "" <==> AllSpace(s)
    ensures TrimStart(s) != "" ==> !IsJsSpace(TrimStart(s)[0])
  {
    if |s| > 0 && IsJsSpace(s[0]) {
      TrimStartEmpty(s[1..]);
      assert forall i :: 1 <= i < |s| ==> s[i] == s[1..][i - 1];
    }
  }

  lemma {:induction false} TrimEndKeepsNonSpaceHead(s: string)
    requires |s| > 0 && !IsJsSpace(s[0])
    ensures TrimEnd(s) != ""
  {
    if IsJsSpace(s[|s| - 1]) {
      TrimEndKeepsNonSpaceHead(s[..|s| - 1]);
    }
  }

  /** `value.trim()` is empty exactly when every character is whitespace. */
  lemma TrimEmptyIffAllSpace(s: string)
    ensures Trim(s) == "" <==> AllSpace(s)
  {
    TrimStartEmpty(s);
    if TrimStart(s) != "" {
      TrimEndKeepsNonSpaceHead(TrimStart(s));
    }
  }

  /** `typeof value === "string" && Boolean(value.trim())`: true exactly for
      a string with at least one non-whitespace character. */
  function IsNonEmptyString(value: Unknown): (b: bool)
    ensures b <==> value.JsString? && exists i :: 0 <= i < |value.s| && !IsJsSpace(value.s[i])
  {
    if value.JsString? then
      TrimEmptyIffAllSpace(value.s);
      Trim(value.s) != ""
    else false
  }

  /** A failed factory result maps to a failed service result with the same
      message; a successful one hands its client over as `data`. */
  function ToServiceResult<T>(clientResult: ClientFactoryResult<T>): (r: ServiceResult<T>)
    ensures r.IsSuccess() <==> clientResult.IsSuccess()
    ensures r.IsSuccess() ==> r.data == clientResult.client
    ensures !r.IsSuccess() ==> r.error == clientResult.error
  {
    if clientResult.IsSuccess() then ServiceOk(clientResult.client)
    else ServiceFailed(clientResult.error)
  }

  /** The two constructors and the conversion compose as expected. */
  lemma ToServiceResultOfConstructors<T>(c: T, e: string)
    ensures ToServiceResult(Success(c)) == ServiceOk(c)
    ensures ToServiceResult(Failure<T>(e)) == ServiceFailed(e)
  {
  }

  lemma BlankStringsAreEmpty()
    ensures !IsNonEmptyString(JsString(""))
    ensures !IsNonEmptyString(JsString("   "))
    ensures !IsNonEmptyString(JsOther)
    ensures IsNonEmptyString(JsString(" a "))
  {
    assert !IsJsSpace(" a "[1]);
  }
}
