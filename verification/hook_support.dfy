/**
 * What the three registry hooks share: JavaScript's `String.prototype.trim`
 * (used only as an emptiness test), the values a mutation can throw, and the
 * callback a settled mutation ends in.
 */
module HookSupport {
  import opened Wrappers

  /** ECMAScript WhiteSpace and LineTerminator code points: what `trim()` removes. */
  predicate JsIsSpace(c: char)
  {
    || c == '\t' || c == '\n' || c == '\U{000B}' || c == '\U{000C}' || c == '\r' || c == ' '
    || c == '\U{00A0}' || c == '\U{1680}' || ('\U{2000}' <= c <= '\U{200A}')
    || c == '\U{2028}' || c == '\U{2029}' || c == '\U{202F}' || c == '\U{205F}'
    || c == '\U{3000}' || c == '\U{FEFF}'
  }

  function TrimStart(s: string): string
  {
    if s != [] && JsIsSpace(s[0]) then TrimStart(s[1..]) else s
  }

  function TrimEnd(s: string): string
  {
    if s != [] && JsIsSpace(s[|s| - 1]) then TrimEnd(s[..|s| - 1]) else s
  }

  /** `s.trim()`. */
  function Trim(s: string): string
  {
    TrimEnd(TrimStart(s))
  }

  /** Every character of `s` is white space (the empty string included). */
  predicate Blank(s: string)
  {
    forall i | 0 <= i < |s| :: JsIsSpace(s[i])
  }

  lemma {:induction false} TrimStartOfBlank(s: string)
    ensures Blank(s) ==> TrimStart(s) == []
    ensures !Blank(s) ==> TrimStart(s) != [] && !JsIsSpace(TrimStart(s)[0])
  {
    if s != [] && JsIsSpace(s[0]) {
      TrimStartOfBlank(s[1..]);
      assert Blank(s) <==> Blank(s[1..]) by {
        assert forall i | 1 <= i < |s| :: s[i] == s[1..][i - 1];
      }
    }
  }

  lemma {:induction false} TrimEndKeepsFirst(s: string)
    requires s != [] && !JsIsSpace(s[0])
    ensures TrimEnd(s) != []
  {
    if JsIsSpace(s[|s| - 1]) {
      TrimEndKeepsFirst(s[..|s| - 1]);
    }
  }

  /** `!s.trim()` holds exactly for the strings made only of white space. */
  lemma TrimEmptyIffBlank(s: string)
    ensures Trim(s) == [] <==> Blank(s)
  {
    TrimStartOfBlank(s);
    if !Blank(s) {
      TrimEndKeepsFirst(TrimStart(s));
    }
  }

  /** What a mutation function can reject with: an `Error` object, or any other value. */
  datatype Thrown = ErrorObject(message: string) | OtherValue

  /** A settled promise. */
  datatype Settled<T> = Resolved(value: T) | Rejected(reason: Thrown)

  /** Which of the caller's callbacks a settled mutation invokes, if any. */
  datatype Callback<T> = OnSuccess(data: T) | OnError(message: string) | NoCallback

  /** What a hook did: the request it sent to the canister (none when validation threw) and the callback it ended in. */
  datatype Flow<Req, T> = Flow(sent: Option<Req>, callback: Callback<T>)

  /**
   * The `onSuccess` handler of the two update hooks: `if (data.Ok) ... else if (data.Err) ...`.
   * JavaScript truthiness makes an empty `Ok` or `Err` string invoke neither callback.
   */
  function OnReply(data: Result<string, string>): (c: Callback<string>)
    ensures c.OnSuccess? <==> data.Ok? && data.value != ""
    ensures c.OnError? <==> data.Err? && data.error != ""
    ensures c.OnSuccess? ==> c.data == data.value
    ensures c.OnError? ==> c.message == data.error
  {
    match data
    case Ok(id) => if id != "" then OnSuccess(id) else NoCallback
    case Err(e) => if e != "" then OnError(e) else NoCallback
  }
}
