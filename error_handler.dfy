/**
 * The decision table of `customHTTPErrorHandler.Handle` in
 * error_handler.go: which status and message an error is answered with,
 * and what is sent. Errors the handler does not recognise go to the web
 * framework's default handler, which is not part of this model; logging
 * is left out.
 */
module ErrorHandler {
  import Checks
  import opened Errors
  import opened SwapRemoval

  const InternalServerErrorText: string := "Internal Server Error"
  const BadRequestText: string := "Bad Request"

  /** MySQL's duplicate-key error number. */
  const DuplicateEntry: int := 1062

  /** The handler's decision: hand the error to the default handler, or answer with a status and message. */
  datatype Decision = Delegate | Answer(code: int, message: string)

  /** What is sent back. */
  datatype Reply =
    | DefaultHandler              // the framework's default handler answers
    | NothingSent                 // the response was already committed
    | StatusOnly(status: int)     // a HEAD request: the status, no body
    | Json(status: int, message: string)

  /** The type switch of `Handle`, starting from status 500 with its standard text. */
  function Classify(err: Err): Decision
    reads if err.Fine? then {err.f} else {}
  {
    match err
    case MySQL(number, message, _) =>
      if number == DuplicateEntry then Answer(StatusBadRequest, message)
      else Answer(StatusInternalServerError, InternalServerErrorText)
    case Validation(arr) => Answer(StatusBadRequest, Checks.Text(arr))
    case Fine(f) => Answer(f.code, f.message)
    case Biz(b) =>
      Answer(if b.typ == BadArgs then StatusBadRequest else StatusInternalServerError, BizError(b))
    case RecordNotFound => Answer(StatusBadRequest, BadRequestText)
    case Other(_) => Delegate
  }

  /** `Handle`: classify, then send JSON, or only the status to a HEAD request, unless already committed. */
  function Handle(err: Err, committed: bool, requestMethod: string): Reply
    reads if err.Fine? then {err.f} else {}
  {
    match Classify(err)
    case Delegate => DefaultHandler
    case Answer(code, message) =>
      if committed then NothingSent
      else if requestMethod == "HEAD" then StatusOnly(code)
      else Json(code, message)
  }

  /**
   * The status answered for each kind: the driver's duplicate-key error and
   * `BadArgs` business errors are client errors, other driver and business
   * errors server errors; a `FineErr` chooses its own; anything unrecognised
   * is delegated.
   */
  lemma StatusTable(err: Err)
    ensures err.MySQL? ==> (Classify(err).code == 400 <==> err.number == DuplicateEntry)
    ensures err.MySQL? ==> Classify(err).code in {400, 500}
    ensures err.Biz? ==> (Classify(err).code == 400 <==> err.b.typ == BadArgs)
    ensures err.Biz? ==> Classify(err).code in {400, 500}
    ensures err.Validation? || err.RecordNotFound? ==> Classify(err).code == 400
    ensures err.Fine? ==> Classify(err).code == err.f.code
    ensures Classify(err).Delegate? <==> err.Other?
  {
  }

  /** The message answered: the driver's own for a duplicate key, the error's text for the checker's and the business errors. */
  lemma MessageTable(err: Err)
    ensures err.MySQL? && err.number == DuplicateEntry ==> Classify(err).message == err.message
    ensures err.MySQL? && err.number != DuplicateEntry ==> Classify(err).message == InternalServerErrorText
    ensures err.Validation? || err.Biz? ==> Classify(err).message == Text(err)
    ensures err.Fine? ==> Classify(err).message == err.f.message
  {
  }

  /** The checker's error array is answered with its text, which is its buffer without the trailing ", ". */
  lemma ValidationMessage(arr: seq<Checks.ErrorData>)
    requires Checks.HasErrors(arr)
    ensures Classify(Validation(arr)).message + ", " == Checks.Buffer(arr)
  {
    Checks.TextTrimsOne(arr);
  }

  /** A HEAD request never gets a body, and a committed response gets nothing more. */
  lemma HeadHasNoBody(err: Err, committed: bool)
    ensures !Handle(err, committed, "HEAD").Json?
    ensures committed ==> Handle(err, committed, "POST") in {DefaultHandler, NothingSent}
  {
  }

  /** A missing record is answered 400 "Bad Request". */
  lemma RecordNotFoundIsBadRequest()
    ensures Handle(RecordNotFound, false, "POST") == Json(400, "Bad Request")
  {
  }

  /** The handler's example cases that do not go to the default handler. */
  lemma ExampleCases(f: FineErr)
    requires f.code == 401 && f.message == "unauth"
    ensures Handle(MySQL(1062, "Duplicate entry 'x' for key y", "Error 1062"), false, "POST")
         == Json(400, "Duplicate entry 'x' for key y")
    ensures Handle(Validation([Checks.ErrorData("name", "姓名", ["不能为空"])]), false, "POST")
         == Json(400, "姓名: 不能为空")
    ensures Handle(Fine(f), false, "POST") == Json(401, "unauth")
    ensures Handle(Other("normal"), false, "POST") == DefaultHandler
  {
    var arr := [Checks.ErrorData("name", "姓名", ["不能为空"])];
    assert DropLast(arr) == [];
    assert DropLast(["不能为空"]) == [];
    assert Checks.Buffer(arr) == "姓名: 不能为空, ";
  }
}
