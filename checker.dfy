/**
 * The validation-message helpers of checker.go: the text of an
 * `ErrorArray`, the translation of validator error kinds into messages
 * (`fmtErrArr`), and the message table `NewChecker` builds. The
 * reflection-driven `Check` itself is not part of this model.
 */
module Checks {
  import opened Wrappers
  import opened SwapRemoval

  /** The validation errors of one field, under the field's title. */
  datatype ErrorData = ErrorData(field: string, title: string, errors: seq<string>)

  // ---------------------------------------------------------------------
  // ErrorArray.Error
  // ---------------------------------------------------------------------

  /** The strings `f` gives for the elements of `xs`, written one after another. */
  function Concat<T>(xs: seq<T>, f: T -> string): string
    decreases |xs|
  {
    if xs == [] then "" else Concat(DropLast(xs), f) + f(Last(xs))
  }

  lemma ConcatSnoc<T>(xs: seq<T>, x: T, f: T -> string)
    ensures Concat(xs + [x], f) == Concat(xs, f) + f(x)
  {
    assert DropLast(xs + [x]) == xs;
  }

  /** Writing two runs one after the other writes the first's text, then the second's. */
  lemma {:induction false} ConcatAppend<T>(xs: seq<T>, ys: seq<T>, f: T -> string)
    ensures Concat(xs + ys, f) == Concat(xs, f) + Concat(ys, f)
    decreases |ys|
  {
    if ys == [] {
      assert xs + ys == xs;
    } else {
      var init, y := DropLast(ys), Last(ys);
      assert ys == init + [y];
      calc {
        Concat(xs + ys, f);
        == { assert xs + ys == (xs + init) + [y]; ConcatSnoc(xs + init, y, f); }
        Concat(xs + init, f) + f(y);
        == { ConcatAppend(xs, init, f); }
        Concat(xs, f) + Concat(init, f) + f(y);
        == { ConcatSnoc(init, y, f); }
        Concat(xs, f) + Concat(ys, f);
      }
    }
  }

  /** One message as written: followed by ", ". */
  function Item(m: string): string {
    m + ", "
  }

  /** Every message followed by ", ". */
  function Messages(ms: seq<string>): string {
    Concat(ms, Item)
  }

  /** What one entry writes into the buffer: nothing without errors, else the title, ": " and its messages. */
  function EntryText(ed: ErrorData): string {
    if |ed.errors| > 0 then ed.title + ": " + Messages(ed.errors) else ""
  }

  /** The buffer after writing the entries `es` in order. */
  function Buffer(es: seq<ErrorData>): string {
    Concat(es, EntryText)
  }

  /** `strings.TrimSuffix`: drops one `suffix` from the end of `s` when it is there. */
  function TrimSuffix(s: string, suffix: string): (r: string)
    ensures |suffix| <= |s| && s[|s| - |suffix|..] == suffix ==> r + suffix == s
    ensures !(|suffix| <= |s| && s[|s| - |suffix|..] == suffix) ==> r == s
  {
    if |suffix| <= |s| && s[|s| - |suffix|..] == suffix then s[..|s| - |suffix|] else s
  }

  /** `ErrorArray.Error` as a value: the buffer without its one trailing ", ". */
  function Text(es: seq<ErrorData>): string {
    TrimSuffix(Buffer(es), ", ")
  }

  /** `ErrorArray.Error`: writes every entry into a buffer, then trims the trailing ", ". */
  method ErrorText(es: seq<ErrorData>) returns (r: string)
    ensures r == Text(es)
  {
    var b := "";
    for i := 0 to |es|
      invariant b == Buffer(es[..i])
    {
      var ed := es[i];
      assert Buffer(es[..i + 1]) == Buffer(es[..i]) + EntryText(ed) by {
        assert es[..i + 1] == es[..i] + [ed];
        ConcatSnoc(es[..i], ed, EntryText);
      }
      if |ed.errors| > 0 {
        b := b + ed.title + ": ";
        for j := 0 to |ed.errors|
          invariant b == Buffer(es[..i]) + ed.title + ": " + Messages(ed.errors[..j])
        {
          assert Messages(ed.errors[..j + 1]) == Messages(ed.errors[..j]) + ed.errors[j] + ", " by {
            assert ed.errors[..j + 1] == ed.errors[..j] + [ed.errors[j]];
            ConcatSnoc(ed.errors[..j], ed.errors[j], Item);
          }
          b := b + ed.errors[j] + ", ";
        }
        assert ed.errors[..|ed.errors|] == ed.errors;
      }
    }
    assert es[..|es|] == es;
    r := TrimSuffix(b, ", ");
  }

  /** Some entry of `es` has an error. */
  predicate HasErrors(es: seq<ErrorData>) {
    exists i :: 0 <= i < |es| && |es[i].errors| > 0
  }

  /** `s` ends in ", ". */
  predicate EndsInComma(s: string) {
    |s| >= 2 && s[|s| - 2..] == ", "
  }

  lemma EndsInCommaAppend(a: string, b: string)
    requires EndsInComma(b)
    ensures EndsInComma(a + b)
  {
    assert (a + b)[|a + b| - 2..] == b[|b| - 2..];
  }

  /**
   * When each piece is empty or ends in ", ", the whole text ends in ", "
   * as soon as one piece is not empty, and is empty otherwise.
   */
  lemma {:induction false} ConcatEnd<T>(xs: seq<T>, f: T -> string)
    requires forall i :: 0 <= i < |xs| ==> f(xs[i]) == "" || EndsInComma(f(xs[i]))
    ensures (exists i :: 0 <= i < |xs| && f(xs[i]) != "") ==> EndsInComma(Concat(xs, f))
    ensures (forall i :: 0 <= i < |xs| ==> f(xs[i]) == "") ==> Concat(xs, f) == ""
    decreases |xs|
  {
    if xs != [] {
      var init, x := DropLast(xs), Last(xs);
      assert forall i :: 0 <= i < |init| ==> init[i] == xs[i];
      ConcatEnd(init, f);
      if f(x) != "" {
        EndsInCommaAppend(Concat(init, f), f(x));
      } else if exists i :: 0 <= i < |xs| && f(xs[i]) != "" {
        var i :| 0 <= i < |xs| && f(xs[i]) != "";
        assert i < |init| && f(init[i]) != "";
      }
    }
  }

  /** Messages end in ", ". */
  lemma MessagesEnd(ms: seq<string>)
    requires ms != []
    ensures EndsInComma(Messages(ms))
  {
    ConcatEnd(ms, Item);
    assert Item(ms[0]) != "";
  }

  /** An entry writes nothing exactly when it has no errors, and otherwise text ending in ", ". */
  lemma EntryEnd(ed: ErrorData)
    ensures EntryText(ed) == "" <==> |ed.errors| == 0
    ensures |ed.errors| > 0 ==> EndsInComma(EntryText(ed))
  {
    if |ed.errors| > 0 {
      MessagesEnd(ed.errors);
      EndsInCommaAppend(ed.title + ": ", Messages(ed.errors));
    }
  }

  /** The buffer ends in ", " exactly when some entry has an error, and is empty otherwise. */
  lemma BufferEnd(es: seq<ErrorData>)
    ensures HasErrors(es) ==> EndsInComma(Buffer(es))
    ensures !HasErrors(es) ==> Buffer(es) == ""
  {
    forall i | 0 <= i < |es|
      ensures EntryText(es[i]) == "" <==> |es[i].errors| == 0
      ensures EntryText(es[i]) == "" || EndsInComma(EntryText(es[i]))
    {
      EntryEnd(es[i]);
    }
    ConcatEnd(es, EntryText);
  }

  /**
   * The text drops exactly one trailing ", ": with some error the buffer is
   * the text followed by ", "; with none the text is empty.
   */
  lemma TextTrimsOne(es: seq<ErrorData>)
    ensures HasErrors(es) ==> Text(es) + ", " == Buffer(es)
    ensures !HasErrors(es) ==> Text(es) == ""
  {
    BufferEnd(es);
  }

  /** An entry without errors contributes nothing, wherever it stands. */
  lemma SilentEntryContributesNothing(a: seq<ErrorData>, ed: ErrorData, b: seq<ErrorData>)
    requires ed.errors == []
    ensures Buffer(a + [ed] + b) == Buffer(a + b)
    ensures Text(a + [ed] + b) == Text(a + b)
  {
    ConcatAppend(a + [ed], b, EntryText);
    ConcatAppend(a, b, EntryText);
    ConcatSnoc(a, ed, EntryText);
  }

  /**
   * Three fields, the last with two messages, render as each title, ": "
   * and its messages, joined by ", ".
   */
  lemma ThreeFields(f1: string, t1: string, m1: string, f2: string, t2: string, m2: string,
                    f3: string, t3: string, m3: string, n3: string)
    ensures Text([ErrorData(f1, t1, [m1]), ErrorData(f2, t2, [m2]), ErrorData(f3, t3, [m3, n3])])
         == t1 + ": " + m1 + ", " + t2 + ": " + m2 + ", " + t3 + ": " + m3 + ", " + n3
  {
    var e1, e2, e3 := ErrorData(f1, t1, [m1]), ErrorData(f2, t2, [m2]), ErrorData(f3, t3, [m3, n3]);
    BufferThree(e1, e2, e3);
    EntryOne(f1, t1, m1);
    EntryOne(f2, t2, m2);
    EntryTwo(f3, t3, m3, n3);
    TextOfBuffer([e1, e2, e3], t1 + ": " + m1 + ", " + t2 + ": " + m2 + ", " + t3 + ": " + m3 + ", " + n3);
  }

  lemma BufferThree(e1: ErrorData, e2: ErrorData, e3: ErrorData)
    ensures Buffer([e1, e2, e3]) == EntryText(e1) + EntryText(e2) + EntryText(e3)
  {
    assert [] + [e1] == [e1] && [e1] + [e2] == [e1, e2] && [e1, e2] + [e3] == [e1, e2, e3];
    ConcatSnoc([], e1, EntryText);
    ConcatSnoc([e1], e2, EntryText);
    ConcatSnoc([e1, e2], e3, EntryText);
  }

  lemma EntryOne(f: string, t: string, m: string)
    ensures EntryText(ErrorData(f, t, [m])) == t + ": " + m + ", "
  {
    assert [] + [m] == [m];
    ConcatSnoc([], m, Item);
  }

  lemma EntryTwo(f: string, t: string, m: string, n: string)
    ensures EntryText(ErrorData(f, t, [m, n])) == t + ": " + m + ", " + n + ", "
  {
    assert [] + [m] == [m] && [m] + [n] == [m, n];
    ConcatSnoc([], m, Item);
    ConcatSnoc([m], n, Item);
  }

  /** A buffer that is `t` followed by ", " gives the text `t`. */
  lemma TextOfBuffer(es: seq<ErrorData>, t: string)
    requires Buffer(es) == t + ", "
    ensures Text(es) == t
  {
    var b := Buffer(es);
    assert b[|b| - 2..] == ", ";
    assert b[..|b| - 2] == t;
  }

  /** The example of three fields with one, one and two messages. */
  lemma ThreeFieldExample()
    ensures Text([ErrorData("ID", "编号", ["不能为空"]),
                  ErrorData("Name", "姓名", ["不能为空"]),
                  ErrorData("Password", "密码", ["不能为空", "太小了"])])
         == "编号" + ": " + "不能为空" + ", " + "姓名" + ": " + "不能为空" + ", "
          + "密码" + ": " + "不能为空" + ", " + "太小了"
  {
    ThreeFields("ID", "编号", "不能为空", "Name", "姓名", "不能为空", "Password", "密码", "不能为空", "太小了");
  }

  // ---------------------------------------------------------------------
  // checker.fmtErrArr
  // ---------------------------------------------------------------------

  /** The error values of the validator library; `Unknown` stands for any other error. */
  datatype Kind = ZeroValue | Min | Max | Len | Regexp | Unsupported | BadParameter | Unknown(text: string)

  /** The message-table key of a recognised kind. */
  function MsgKey(k: Kind): Option<string> {
    match k
    case ZeroValue => Some("zeroValue")
    case Min => Some("min")
    case Max => Some("max")
    case Len => Some("len")
    case Regexp => Some("regexp")
    case Unsupported => Some("unsupport")
    case BadParameter => Some("badParameter")
    case Unknown(_) => None
  }

  predicate Known(k: Kind) {
    MsgKey(k).Some?
  }

  /** A Go map read: a missing key yields the empty string. */
  function Lookup(m: map<string, string>, key: string): string {
    if key in m then m[key] else ""
  }

  /** The message of a recognised kind. */
  function MessageOf(m: map<string, string>, k: Kind): string
    requires Known(k)
  {
    Lookup(m, MsgKey(k).value)
  }

  /** The messages `fmtErrArr` collects for `errs`, in order. */
  function Formatted(m: map<string, string>, errs: seq<Kind>): seq<string>
    decreases |errs|
  {
    if errs == [] then []
    else Formatted(m, DropLast(errs)) + (if Known(Last(errs)) then [MessageOf(m, Last(errs))] else [])
  }

  /** `checker.fmtErrArr`: appends the message of every recognised kind, skipping the rest. */
  method FmtErrArr(m: map<string, string>, errs: seq<Kind>) returns (ss: seq<string>)
    ensures ss == Formatted(m, errs)
  {
    ss := [];
    for i := 0 to |errs|
      invariant ss == Formatted(m, errs[..i])
    {
      assert DropLast(errs[..i + 1]) == errs[..i];
      match errs[i]
      case ZeroValue => ss := ss + [Lookup(m, "zeroValue")];
      case Min => ss := ss + [Lookup(m, "min")];
      case Max => ss := ss + [Lookup(m, "max")];
      case Len => ss := ss + [Lookup(m, "len")];
      case Regexp => ss := ss + [Lookup(m, "regexp")];
      case Unsupported => ss := ss + [Lookup(m, "unsupport")];
      case BadParameter => ss := ss + [Lookup(m, "badParameter")];
      case Unknown(_) =>
    }
    assert errs[..|errs|] == errs;
  }

  /**
   * The collected messages are those of the recognised kinds, one each, in
   * input order: so there are never more messages than errors.
   */
  lemma {:induction false} FormattedPicksKnown(m: map<string, string>, errs: seq<Kind>)
    ensures var known := Filter(errs, Known);
      && |Formatted(m, errs)| == |known| <= |errs|
      && forall t :: 0 <= t < |known| ==> Known(known[t]) && Formatted(m, errs)[t] == MessageOf(m, known[t])
    decreases |errs|
  {
    if errs != [] {
      FormattedPicksKnown(m, DropLast(errs));
      FilterSnoc(DropLast(errs), Last(errs), Known);
      assert errs == DropLast(errs) + [Last(errs)];
    }
  }

  // ---------------------------------------------------------------------
  // NewChecker and the shared message table
  // ---------------------------------------------------------------------

  /** `defaultsErrorMsgMap`. */
  const Defaults: map<string, string> := map[
    "zeroValue" := "不能为空",
    "min" := "太小了",
    "max" := "太大了",
    "len" := "长度不正确",
    "regexp" := "不符合规则",
    "unsupport" := "类型错误",
    "badParameter" := "类型错误"]

  /** The map object behind `defaultsErrorMsgMap`; a Go map is a reference. */
  class MessageTable {
    var entries: map<string, string>

    constructor (initial: map<string, string>)
      ensures entries == initial
    {
      entries := initial;
    }
  }

  /** A checker's configuration; the validator instance is not part of this model. */
  class Checker {
    const ruleTagName: string
    const titleTagName: string
    const errorMsgMap: MessageTable

    constructor (ruleTagName: string, titleTagName: string, errorMsgMap: MessageTable)
      ensures this.ruleTagName == ruleTagName && this.titleTagName == titleTagName
      ensures this.errorMsgMap == errorMsgMap
    {
      this.ruleTagName := ruleTagName;
      this.titleTagName := titleTagName;
      this.errorMsgMap := errorMsgMap;
    }
  }

  /** The table `m` after writing every override into it. */
  predicate Merged(m: map<string, string>, base: map<string, string>, overrides: map<string, string>) {
    && m.Keys == base.Keys + overrides.Keys
    && forall k :: k in m ==> m[k] == if k in overrides then overrides[k] else base[k]
  }

  /**
   * `NewChecker` as written: the checker keeps the package table itself and
   * the overrides (`None` is a nil map) are written into that shared table.
   */
  method NewChecker(defaults: MessageTable, ruleTagName: string, titleTagName: string,
                    overrides: Option<map<string, string>>) returns (c: Checker)
    modifies defaults
    ensures fresh(c) && c.errorMsgMap == defaults
    ensures c.ruleTagName == ruleTagName && c.titleTagName == titleTagName
    ensures overrides.None? ==> defaults.entries == old(defaults.entries)
    ensures overrides.Some? ==> Merged(defaults.entries, old(defaults.entries), overrides.value)
  {
    if overrides.Some? {
      var o := overrides.value;
      var todo := o.Keys;
      while todo != {}
        invariant todo <= o.Keys
        invariant defaults.entries.Keys == old(defaults.entries).Keys + (o.Keys - todo)
        invariant forall k :: k in defaults.entries ==>
          defaults.entries[k] == if k in o && k !in todo then o[k] else old(defaults.entries)[k]
        decreases todo
      {
        var k :| k in todo;
        defaults.entries := defaults.entries[k := o[k]];
        todo := todo - {k};
      }
    }
    c := new Checker(ruleTagName, titleTagName, defaults);
  }

  /**
   * A checker built with overrides changes the messages of every checker
   * built before it: the default checker reports the override.
   */
  method OverrideLeaksIntoDefault() returns (before: string, after: string)
    ensures before == "不能为空" && after == "must be set"
  {
    var table := new MessageTable(Defaults);
    var dft := NewChecker(table, "validate", "title", None);
    before := Lookup(dft.errorMsgMap.entries, "zeroValue");
    var custom := NewChecker(table, "validate", "title", Some(map["zeroValue" := "must be set"]));
    after := Lookup(dft.errorMsgMap.entries, "zeroValue");
  }

  /**
   * `NewChecker` corrected: the overrides go into a copy of the package
   * table, which stays as it was.
   */
  method NewCheckerCopying(defaults: MessageTable, ruleTagName: string, titleTagName: string,
                           overrides: Option<map<string, string>>) returns (c: Checker)
    ensures fresh(c) && c.errorMsgMap != defaults
    ensures c.ruleTagName == ruleTagName && c.titleTagName == titleTagName
    ensures overrides.None? ==> c.errorMsgMap.entries == defaults.entries
    ensures overrides.Some? ==> Merged(c.errorMsgMap.entries, defaults.entries, overrides.value)
  {
    var emm := new MessageTable(defaults.entries);
    if overrides.Some? {
      var o := overrides.value;
      var todo := o.Keys;
      while todo != {}
        invariant todo <= o.Keys
        invariant emm.entries.Keys == defaults.entries.Keys + (o.Keys - todo)
        invariant forall k :: k in emm.entries ==>
          emm.entries[k] == if k in o && k !in todo then o[k] else defaults.entries[k]
        decreases todo
      {
        var k :| k in todo;
        emm.entries := emm.entries[k := o[k]];
        todo := todo - {k};
      }
    }
    c := new Checker(ruleTagName, titleTagName, emm);
  }

  /** With the corrected constructor the default checker keeps its messages. */
  method OverrideStaysLocal() returns (before: string, after: string)
    ensures before == "不能为空" && after == "不能为空"
  {
    var table := new MessageTable(Defaults);
    var dft := NewCheckerCopying(table, "validate", "title", None);
    before := Lookup(dft.errorMsgMap.entries, "zeroValue");
    var custom := NewCheckerCopying(table, "validate", "title", Some(map["zeroValue" := "must be set"]));
    after := Lookup(dft.errorMsgMap.entries, "zeroValue");
  }
}
