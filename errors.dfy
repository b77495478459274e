/**
 * The error values of err.go: `FineErr`, a user-facing error with a
 * status code that may wrap another error, and `BizErr`, a typed business
 * error with a code string and a cause. `Err` gathers the kinds of error
 * the HTTP error handler tells apart. The caller location that the Go
 * constructors capture from the runtime stack is passed in as parameters.
 */
module Errors {
  import opened Wrappers
  import Checks

  const StatusBadRequest: int := 400
  const StatusInternalServerError: int := 500

  /** `ErrType`: an integer type with two named values. */
  const BadArgs: int := 0
  const SrvErr: int := 1

  /** The errors the handler distinguishes; `Other` is any other error, given by its text. */
  datatype Err =
    | Other(text: string)
    | MySQL(number: int, message: string, text: string)  // the driver's error; `text` is its Error()
    | Validation(arr: seq<Checks.ErrorData>)              // `ErrorArray`
    | Fine(f: FineErr)                                    // `*FineErr`
    | Biz(b: BizErr)
    | RecordNotFound                                      // `gorm.ErrRecordNotFound`

  /** `BizErr`: its type, cause, code and the caller location. */
  datatype BizErr = BizErr(typ: int, cause: Option<Err>, code: string, file: string, line: int, fn: string)

  /**
   * A user-facing error. The wrapped error is kept as its text, which is
   * all `Error` reads of it.
   */
  class FineErr {
    var err: Option<string>
    var code: int
    var message: string
    var caller: string

    /** `NewFineErr`: nothing wrapped yet. */
    constructor (code: int, message: string, caller: string)
      ensures this.code == code && this.message == message && this.caller == caller
      ensures err == None && Error() == message
    {
      this.code := code;
      this.message := message;
      this.caller := caller;
      err := None;
    }

    /** `FineErr.Error`: the message, unless an error is wrapped, whose text wins. */
    function Error(): string
      reads this
    {
      if err.None? then message else err.value
    }

    /**
     * `FineErr.SetError`: wraps `e` (`None` is a nil error) and returns the
     * same object; wrapping nil makes `Error` show the message again.
     */
    method SetError(e: Option<string>) returns (r: FineErr)
      modifies this`err
      ensures r == this && err == e
      ensures Error() == (if e.None? then message else e.value)
    {
      err := e;
      r := this;
    }
  }

  /** `Error()` of any error. */
  function Text(e: Err): string
    reads if e.Fine? then {e.f} else {}
  {
    match e
    case Other(text) => text
    case MySQL(_, _, text) => text
    case Validation(arr) => Checks.Text(arr)
    case Fine(f) => f.Error()
    case Biz(b) => BizError(b)
    case RecordNotFound => "record not found"
  }

  /** `TraceError`: a status-500 error whose message is the text of `e` and which wraps `e`. */
  method TraceError(e: Err, caller: string) returns (f: FineErr)
    ensures fresh(f)
    ensures f.code == StatusInternalServerError && f.message == Text(e) && f.err == Some(Text(e))
    ensures f.Error() == Text(e)
  {
    var t := Text(e);
    f := new FineErr(StatusInternalServerError, t, caller);
    f := f.SetError(Some(t));
  }

  /** The wrapped text wins over the message, and the message shows when nothing is wrapped. */
  lemma FineErrText(f: FineErr)
    ensures f.err.Some? ==> f.Error() == f.err.value
    ensures f.err.None? ==> f.Error() == f.message
  {
  }

  function NewBadArgs(code: string, cause: Option<Err>, file: string, line: int, fn: string): BizErr {
    BizErr(BadArgs, cause, code, file, line, fn)
  }

  function NewSrvErr(code: string, cause: Option<Err>, file: string, line: int, fn: string): BizErr {
    BizErr(SrvErr, cause, code, file, line, fn)
  }

  /** `BizErr.Error`: the code. */
  function BizError(be: BizErr): string {
    be.code
  }

  /** `BizErr.Unwrap`: the cause. */
  function Unwrap(be: BizErr): Option<Err> {
    be.cause
  }

  /** `BizErr.Is`: any `BizErr` target matches. */
  predicate Is(be: BizErr, target: Err) {
    target.Biz?
  }

  /** `BizErr.Caller`. */
  function Caller(be: BizErr): (string, int, string) {
    (be.file, be.line, be.fn)
  }

  /** Both constructors keep the code as the text and the cause as the unwrapped error; only the type differs. */
  lemma BizErrConstructors(code: string, cause: Option<Err>, file: string, line: int, fn: string)
    ensures var a, s := NewBadArgs(code, cause, file, line, fn), NewSrvErr(code, cause, file, line, fn);
      && a.typ == BadArgs && s.typ == SrvErr && a.typ != s.typ
      && BizError(a) == code && BizError(s) == code
      && Unwrap(a) == cause && Unwrap(s) == cause
      && Caller(a) == (file, line, fn) && Caller(s) == (file, line, fn)
      && Text(Biz(a)) == code
  {
  }

  /** `Is` looks only at the kind of the target: every `BizErr` matches every `BizErr`, and nothing else. */
  lemma IsIgnoresContents(be1: BizErr, be2: BizErr, target: Err)
    ensures Is(be1, target) == Is(be2, target)
    ensures Is(be1, Biz(be2))
    ensures !Is(be1, RecordNotFound) && !Is(be1, Other(be1.code))
  {
  }
}
