/**
 * The comma-separated string list of support/sqlex/string_list.go, as
 * stored in a database column: written as the elements joined by ",",
 * read back by trimming spaces and splitting on ",". The scanned value's
 * dynamic type is the `ScanInput` datatype; a byte slice is read as the
 * characters of its bytes.
 */
module SqlStringList {
  import opened Wrappers

  /** `strings.Join(l, ",")`. */
  function Join(l: seq<string>): (r: string)
    decreases |l|
  {
    if l == [] then "" else if |l| == 1 then l[0] else l[0] + "," + Join(l[1..])
  }

  /** `strings.Split(s, ",")`: the pieces between commas; never empty. */
  function Split(s: string): (r: seq<string>)
    ensures |r| >= 1
    decreases |s|
  {
    if s == [] then [""]
    else if s[0] == ',' then [""] + Split(s[1..])
    else var rest := Split(s[1..]); [[s[0]] + rest[0]] + rest[1..]
  }

  /** `strings.TrimLeft(s, " ")`. */
  function TrimLeft(s: string): string
    decreases |s|
  {
    if s != [] && s[0] == ' ' then TrimLeft(s[1..]) else s
  }

  /** `strings.TrimRight(s, " ")`. */
  function TrimRight(s: string): string
    decreases |s|
  {
    if s != [] && s[|s| - 1] == ' ' then TrimRight(s[..|s| - 1]) else s
  }

  /** `strings.Trim(s, " ")`: only the space character is trimmed. */
  function Trim(s: string): string {
    TrimRight(TrimLeft(s))
  }

  /** `StringList.Value`: the elements joined with ",". */
  function Value(l: seq<string>): string {
    Join(l)
  }

  /** The list `Scan` stores for the text `v`. */
  function ScanText(v: string): seq<string> {
    var t := Trim(v);
    if t == "" then [] else Split(t)
  }

  /** The dynamic type of the value given to `Scan`. */
  datatype ScanInput = Bytes(b: string) | Str(s: string) | OtherType

  const UnknownTypeError: string := "unknown type in StringList.Scan"

  /** A `StringList` variable, written through the receiver pointer. */
  class StringList {
    var items: seq<string>

    constructor (items: seq<string>)
      ensures this.items == items
    {
      this.items := items;
    }

    /** `StringList.Scan`: text or bytes are trimmed and split; any other type is refused. */
    method Scan(value: ScanInput) returns (err: Option<string>)
      modifies this
      ensures value.OtherType? ==> err == Some(UnknownTypeError) && items == old(items)
      ensures value.Bytes? ==> err == None && items == ScanText(value.b)
      ensures value.Str? ==> err == None && items == ScanText(value.s)
    {
      var v: string;
      match value {
        case Bytes(b) => v := b;
        case Str(s) => v := s;
        case OtherType => return Some(UnknownTypeError);
      }
      v := Trim(v);
      if v == "" {
        items := [];
      } else {
        items := Split(v);
      }
      return None;
    }

    /**
     * `StringList.UnmarshalJSON`: input starting with '[' is decoded as a
     * JSON array (`decoded` is the JSON library's answer); any other input
     * is split on "," without trimming.
     */
    method UnmarshalJSON(b: string, decoded: Result<seq<string>, string>) returns (err: Option<string>)
      modifies this
      ensures |b| > 0 && b[0] == '[' && decoded.Failure? ==> err == Some(decoded.error) && items == old(items)
      ensures |b| > 0 && b[0] == '[' && decoded.Success? ==> err == None && items == decoded.value
      ensures !(|b| > 0 && b[0] == '[') ==> err == None && items == Split(b)
    {
      if |b| > 0 && b[0] == '[' {
        if decoded.Failure? {
          return Some(decoded.error);
        }
        items := decoded.value;
      } else {
        items := Split(b);
      }
      return None;
    }
  }

  // ---------------------------------------------------------------------
  // Properties of the codec
  // ---------------------------------------------------------------------

  /** Text without a comma is one piece. */
  lemma {:induction false} SplitNoComma(a: string)
    requires ',' !in a
    ensures Split(a) == [a]
    decreases |a|
  {
    if a != [] {
      SplitNoComma(a[1..]);
      assert a[0] in a;
      assert [a[0]] + a[1..] == a;
    }
  }

  /** A comma-free piece followed by "," splits off as the first element. */
  lemma {:induction false} SplitPrefix(a: string, rest: string)
    requires ',' !in a
    ensures Split(a + "," + rest) == [a] + Split(rest)
    decreases |a|
  {
    if a == [] {
      assert a + "," + rest == [','] + rest;
      assert ([','] + rest)[1..] == rest;
    } else {
      SplitPrefix(a[1..], rest);
      assert (a + "," + rest)[1..] == a[1..] + "," + rest;
      assert [a[0]] + a[1..] == a;
    }
  }

  /** Splitting the joined text gives back a non-empty list of comma-free elements. */
  lemma {:induction false} SplitJoin(l: seq<string>)
    requires |l| >= 1 && forall i :: 0 <= i < |l| ==> ',' !in l[i]
    ensures Split(Join(l)) == l
    decreases |l|
  {
    if |l| == 1 {
      SplitNoComma(l[0]);
    } else {
      SplitJoin(l[1..]);
      SplitPrefix(l[0], Join(l[1..]));
      assert [l[0]] + l[1..] == l;
    }
  }

  /** Joining the pieces gives back the text. */
  lemma {:induction false} JoinSplit(s: string)
    ensures Join(Split(s)) == s
    decreases |s|
  {
    if s != [] {
      JoinSplit(s[1..]);
      var rest := Split(s[1..]);
      if s[0] == ',' {
        assert Split(s)[1..] == rest;
        assert s == [','] + s[1..];
      } else {
        var r := Split(s);
        if |rest| == 1 {
          assert r == [[s[0]] + rest[0]];
        } else {
          assert r[1..] == rest[1..];
          assert Join(rest) == rest[0] + "," + Join(rest[1..]);
        }
        assert s == [s[0]] + s[1..];
      }
    }
  }

  /** The joined text is empty only for the empty list and for [""]. */
  lemma JoinEmpty(l: seq<string>)
    requires Join(l) == ""
    ensures l == [] || l == [""]
  {
  }

  lemma {:induction false} TrimLeftShape(s: string)
    ensures var t := TrimLeft(s);
      |t| <= |s| && t == s[|s| - |t|..] && (t == "" || t[0] != ' ')
      && forall i :: 0 <= i < |s| - |t| ==> s[i] == ' '
    decreases |s|
  {
    if s != [] && s[0] == ' ' {
      TrimLeftShape(s[1..]);
    }
  }

  lemma {:induction false} TrimRightShape(s: string)
    ensures var t := TrimRight(s);
      |t| <= |s| && t == s[..|t|] && (t == "" || t[|t| - 1] != ' ')
      && forall i :: |t| <= i < |s| ==> s[i] == ' '
    decreases |s|
  {
    if s != [] && s[|s| - 1] == ' ' {
      TrimRightShape(s[..|s| - 1]);
    }
  }

  /** Trimming removes the leading and trailing spaces, and nothing else. */
  lemma TrimShape(s: string)
    ensures var t := Trim(s);
      exists i, j :: 0 <= i <= j <= |s| && t == s[i..j]
        && (forall k :: 0 <= k < i || j <= k < |s| ==> s[k] == ' ')
        && (t == "" || (t[0] != ' ' && t[|t| - 1] != ' '))
  {
    TrimLeftShape(s);
    var u := TrimLeft(s);
    TrimRightShape(u);
    var t := TrimRight(u);
    var i := |s| - |u|;
    var j := i + |t|;
    assert t == s[i..j];
    forall k | 0 <= k < i || j <= k < |s|
      ensures s[k] == ' '
    {
      if j <= k {
        assert s[k] == u[k - i];
      }
    }
  }

  /** Text already without surrounding spaces is left as it is. */
  lemma TrimmedIsFixed(s: string)
    requires s == "" || (s[0] != ' ' && s[|s| - 1] != ' ')
    ensures Trim(s) == s
  {
  }

  /**
   * Scanning the stored value gives back the list, when no element holds a
   * comma, the joined text has no surrounding spaces, and the list is not
   * the single empty string (which is read back as the empty list).
   */
  lemma ScanValueRoundTrip(l: seq<string>)
    requires forall i :: 0 <= i < |l| ==> ',' !in l[i]
    requires Value(l) == "" || (Value(l)[0] != ' ' && Value(l)[|Value(l)| - 1] != ' ')
    requires l != [""]
    ensures ScanText(Value(l)) == l
  {
    TrimmedIsFixed(Value(l));
    if Value(l) == "" {
      JoinEmpty(l);
    } else {
      SplitJoin(l);
    }
  }

  /** The single empty string does not survive: it is read back as the empty list. */
  lemma EmptyElementLost()
    ensures Value([""]) == "" && ScanText(Value([""])) == []
  {
  }

  /** The stored form of ["aaa", "bbb"] is "aaa,bbb", and it reads back. */
  lemma ValueExample()
    ensures Value(["aaa", "bbb"]) == "aaa,bbb"
    ensures ScanText("aaa,bbb") == ["aaa", "bbb"]
  {
    ScanValueRoundTrip(["aaa", "bbb"]);
  }

  /** Empty or all-space text scans to the empty list; plain text (not '[') of "" unmarshals to [""]. */
  lemma EmptyInputs(n: nat)
    ensures ScanText("") == [] && ScanText(seq(n, _ => ' ')) == []
    ensures Split("") == [""]
  {
    var s := seq(n, _ => ' ');
    TrimLeftAllSpaces(s);
  }

  lemma {:induction false} TrimLeftAllSpaces(s: string)
    requires forall i :: 0 <= i < |s| ==> s[i] == ' '
    ensures TrimLeft(s) == ""
    decreases |s|
  {
    if s != [] {
      TrimLeftAllSpaces(s[1..]);
    }
  }
}
