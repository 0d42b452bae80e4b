/**
 The streaming JSON writer (core/src/json_writer.cpp). One comma flag serves all nesting depths, a second
 flag keeps a value on the line of its key. `State` and the functions on it are the writer's calls;
 `Written` is the sequence of calls for a whole JSON value, and what it writes reads back as that value.
 */
module JsonWriting {
  import opened Outcomes
  import opened JsonText
  import opened Decimals

  datatype State = State(out: string, stack: seq<bool>, needComma: bool, afterKey: bool)

  const FRESH := State("", [], false, false)

  function Spaces(n: nat): string { seq(n, _ => ' ') }

  function NewLine(width: int, depth: nat): string {
    if width <= 0 then "" else "\n" + Spaces(width * depth)
  }

  // ---------------------------------------------------------------- the calls

  function Prepared(s: State, width: int): State {
    if s.afterKey then s.(afterKey := false)
    else
      var out := s.out + (if s.needComma then "," else "");
      s.(out := if s.stack != [] then out + NewLine(width, |s.stack|) else out, needComma := true)
  }

  function Scalar(s: State, width: int, text: string): State {
    var p := Prepared(s, width);
    p.(out := p.out + text)
  }

  function Opened(s: State, width: int, isArray: bool): State {
    var p := Prepared(s, width);
    p.(out := p.out + (if isArray then "[" else "{"), stack := p.stack + [isArray], needComma := false)
  }

  function Closed(s: State, width: int, isArray: bool): State
    requires s.stack != []
  {
    var stack := s.stack[..|s.stack| - 1];
    s.(out := s.out + (if s.needComma then NewLine(width, |stack|) else "") + (if isArray then "]" else "}"),
       stack := stack, needComma := true)
  }

  function Keyed(s: State, width: int, k: string): State {
    s.(out := s.out + (if s.needComma then "," else "") + NewLine(width, |s.stack|) + Escaped(k) + ":"
              + (if width > 0 then " " else ""),
       needComma := true, afterKey := true)
  }

  // ---------------------------------------------------------------- the calls for a whole value

  function Written(s: State, width: int, j: JsonTree): (t: State)
    requires s.afterKey ==> s.needComma
    ensures t.stack == s.stack && t.needComma && !t.afterKey
    decreases j, 0
  {
    match j
    case Null => Scalar(s, width, "null")
    case Bool(b) => Scalar(s, width, if b then "true" else "false")
    case Num(text) => Scalar(s, width, text)
    case Str(v) => Scalar(s, width, Escaped(v))
    case Arr(items) => Closed(WrittenItems(Opened(s, width, true), width, items), width, true)
    case Obj(members) => Closed(WrittenMembers(Opened(s, width, false), width, members), width, false)
  }

  function WrittenItems(s: State, width: int, items: seq<JsonTree>): (t: State)
    requires !s.afterKey
    ensures t.stack == s.stack && !t.afterKey && (t.needComma <==> s.needComma || items != [])
    decreases items, 0
  {
    if items == [] then s else WrittenItems(Written(s, width, items[0]), width, items[1..])
  }

  function WrittenMembers(s: State, width: int, members: seq<Member>): (t: State)
    requires !s.afterKey
    ensures t.stack == s.stack && !t.afterKey && (t.needComma <==> s.needComma || members != [])
    decreases members, 0
  {
    if members == [] then s
    else WrittenMembers(Written(Keyed(s, width, members[0].key), width, members[0].value), width, members[1..])
  }

  // ---------------------------------------------------------------- the writer

  class JsonWriter {
    var out: string
    var stack: seq<bool>
    var needComma: bool
    var afterKey: bool
    const indentWidth: int

    ghost function Abstract(): State
      reads this
    {
      State(out, stack, needComma, afterKey)
    }

    constructor (indentWidth: int)
      ensures Abstract() == FRESH && this.indentWidth == indentWidth
    {
      this.indentWidth := indentWidth;
      out, stack, needComma, afterKey := "", [], false, false;
    }

    method NewlineIndent()
      modifies this`out
      ensures out == old(out) + NewLine(indentWidth, |stack|)
    {
      if indentWidth > 0 {
        out := out + "\n";
        out := out + Spaces(indentWidth * |stack|);
      }
    }

    method PrepareValue()
      modifies this
      ensures Abstract() == Prepared(old(Abstract()), indentWidth)
    {
      if afterKey {
        afterKey := false;
        return;
      }
      if needComma {
        out := out + ",";
      }
      if stack != [] {
        NewlineIndent();
      }
      needComma := true;
    }

    method Begin(isArray: bool)
      modifies this
      ensures Abstract() == Opened(old(Abstract()), indentWidth, isArray)
    {
      PrepareValue();
      out := out + (if isArray then "[" else "{");
      stack := stack + [isArray];
      needComma := false;
    }

    method End(isArray: bool)
      requires stack != []
      modifies this
      ensures Abstract() == Closed(old(Abstract()), indentWidth, isArray)
    {
      var empty := !needComma;
      stack := stack[..|stack| - 1];
      if !empty {
        NewlineIndent();
      }
      out := out + (if isArray then "]" else "}");
      needComma := true;
    }

    method Key(k: string)
      modifies this
      ensures Abstract() == Keyed(old(Abstract()), indentWidth, k)
    {
      if needComma {
        out := out + ",";
      }
      NewlineIndent();
      var literal := JsonEscape(k);
      out := out + literal;
      out := out + ":";
      if indentWidth > 0 {
        out := out + " ";
      }
      needComma := true;
      afterKey := true;
    }

    method Value(text: string)
      modifies this
      ensures Abstract() == Scalar(old(Abstract()), indentWidth, text)
    {
      PrepareValue();
      out := out + text;
    }

    /** The calls that write one JSON value. */
    method WriteTree(j: JsonTree)
      requires afterKey ==> needComma
      modifies this
      ensures Abstract() == Written(old(Abstract()), indentWidth, j)
      decreases j, 0
    {
      match j
      case Null => Value("null");
      case Bool(b) => Value(if b then "true" else "false");
      case Num(text) => Value(text);
      case Str(v) =>
        var literal := JsonEscape(v);
        Value(literal);
      case Arr(items) =>
        Begin(true);
        WriteItems(items);
        End(true);
      case Obj(members) =>
        Begin(false);
        WriteMembers(members);
        End(false);
    }

    method WriteItems(items: seq<JsonTree>)
      requires !afterKey
      modifies this
      ensures Abstract() == WrittenItems(old(Abstract()), indentWidth, items)
      decreases items, 0
    {
      if items != [] {
        WriteTree(items[0]);
        WriteItems(items[1..]);
      }
    }

    method WriteMembers(members: seq<Member>)
      requires !afterKey
      modifies this
      ensures Abstract() == WrittenMembers(old(Abstract()), indentWidth, members)
      decreases members, 0
    {
      if members != [] {
        Key(members[0].key);
        WriteTree(members[0].value);
        WriteMembers(members[1..]);
      }
    }
  }

  // ---------------------------------------------------------------- the text of a value

  /** The text of a value at a nesting depth, followed by `rest`. */
  function TextTo(j: JsonTree, width: int, depth: nat, rest: string): string
    decreases j, 0
  {
    match j
    case Null => "null" + rest
    case Bool(b) => (if b then "true" else "false") + rest
    case Num(text) => text + rest
    case Str(v) => Escaped(v) + rest
    case Arr(items) =>
      "[" + ItemsTo(items, width, depth + 1, false, (if items != [] then NewLine(width, depth) else "") + "]" + rest)
    case Obj(members) =>
      "{" + MembersTo(members, width, depth + 1, false,
                      (if members != [] then NewLine(width, depth) else "") + "}" + rest)
  }

  function Comma(needed: bool): string { if needed then "," else "" }

  function ItemsTo(items: seq<JsonTree>, width: int, depth: nat, comma: bool, rest: string): string
    decreases items, 0
  {
    if items == [] then rest
    else
      Comma(comma)
      + (NewLine(width, depth) + TextTo(items[0], width, depth, ItemsTo(items[1..], width, depth, true, rest)))
  }

  function MembersTo(members: seq<Member>, width: int, depth: nat, comma: bool, rest: string): string
    decreases members, 0
  {
    if members == [] then rest
    else
      Comma(comma)
      + (NewLine(width, depth)
         + MemberTo(members[0], width, depth, MembersTo(members[1..], width, depth, true, rest)))
  }

  function MemberTo(m: Member, width: int, depth: nat, rest: string): string
    decreases m, 0
  {
    Escaped(m.key) + (":" + ((if width > 0 then " " else "") + TextTo(m.value, width, depth, rest)))
  }

  /** The calls write that text, behind what the flags ask for. */
  lemma {:induction false} WrittenIsText(s: State, width: int, j: JsonTree, rest: string)
    requires s.afterKey ==> s.needComma
    ensures Written(s, width, j).out + rest == Prepared(s, width).out + TextTo(j, width, |s.stack|, rest)
    decreases j, 0
  {
    var p := Prepared(s, width);
    match j
    case Null => Associate(p.out, "null", rest);
    case Bool(b) => Associate(p.out, if b then "true" else "false", rest);
    case Num(text) => Associate(p.out, text, rest);
    case Str(v) => Associate(p.out, Escaped(v), rest);
    case Arr(items) =>
      var o := Opened(s, width, true);
      var closing := if items != [] then NewLine(width, |s.stack|) else "";
      ItemsWrittenIsText(o, width, items, closing + "]" + rest);
      ClosedOut(s, width, true, WrittenItems(o, width, items), closing, rest);
      Associate(p.out, "[", ItemsTo(items, width, |o.stack|, false, closing + "]" + rest));
    case Obj(members) =>
      var o := Opened(s, width, false);
      var closing := if members != [] then NewLine(width, |s.stack|) else "";
      MembersWrittenIsText(o, width, members, closing + "}" + rest);
      ClosedOut(s, width, false, WrittenMembers(o, width, members), closing, rest);
      Associate(p.out, "{", MembersTo(members, width, |o.stack|, false, closing + "}" + rest));
  }

  lemma ClosedOut(s: State, width: int, isArray: bool, w: State, closing: string, rest: string)
    requires w.stack == s.stack + [isArray] && closing == if w.needComma then NewLine(width, |s.stack|) else ""
    ensures Closed(w, width, isArray).out + rest == w.out + (closing + (if isArray then "]" else "}") + rest)
  {
    assert w.stack[..|w.stack| - 1] == s.stack;
    var bracket := if isArray then "]" else "}";
    assert w.out + closing + bracket + rest == w.out + (closing + bracket + rest);
  }

  lemma {:induction false} ItemsWrittenIsText(s: State, width: int, items: seq<JsonTree>, rest: string)
    requires !s.afterKey && s.stack != []
    ensures WrittenItems(s, width, items).out + rest == s.out + ItemsTo(items, width, |s.stack|, s.needComma, rest)
    decreases items, 0
  {
    if items != [] {
      var w := Written(s, width, items[0]);
      ItemsWrittenIsText(w, width, items[1..], rest);
      var tail := ItemsTo(items[1..], width, |s.stack|, true, rest);
      WrittenIsText(s, width, items[0], tail);
      var text := TextTo(items[0], width, |s.stack|, tail);
      assert Prepared(s, width).out == s.out + Comma(s.needComma) + NewLine(width, |s.stack|);
      assert s.out + Comma(s.needComma) + NewLine(width, |s.stack|) + text
          == s.out + (Comma(s.needComma) + (NewLine(width, |s.stack|) + text));
    }
  }

  lemma {:induction false} MembersWrittenIsText(s: State, width: int, members: seq<Member>, rest: string)
    requires !s.afterKey && s.stack != []
    ensures WrittenMembers(s, width, members).out + rest
            == s.out + MembersTo(members, width, |s.stack|, s.needComma, rest)
    decreases members, 0
  {
    if members != [] {
      var k := Keyed(s, width, members[0].key);
      var w := Written(k, width, members[0].value);
      MembersWrittenIsText(w, width, members[1..], rest);
      var tail := MembersTo(members[1..], width, |s.stack|, true, rest);
      WrittenIsText(k, width, members[0].value, tail);
      KeyedOut(s, width, members[0], TextTo(members[0].value, width, |s.stack|, tail));
    }
  }

  lemma KeyedOut(s: State, width: int, m: Member, text: string)
    ensures Keyed(s, width, m.key).out + text ==
            s.out + (Comma(s.needComma) + (NewLine(width, |s.stack|)
                     + (Escaped(m.key) + (":" + ((if width > 0 then " " else "") + text)))))
  {
    var a, b, c, d := Comma(s.needComma), NewLine(width, |s.stack|), Escaped(m.key), if width > 0 then " " else "";
    hide Comma, NewLine, Escaped;
    SixParts(s.out, a, b, c, ":", d, text);
  }

  lemma SixParts(o: string, a: string, b: string, c: string, d: string, e: string, f: string)
    ensures o + a + b + c + d + e + f == o + (a + (b + (c + (d + (e + f)))))
  {
    assert d + e + f == d + (e + f);
    assert o + a + b + c == o + (a + (b + c));
  }

  // ---------------------------------------------------------------- reading it back

  ghost predicate NumbersOk(j: JsonTree) {
    match j
    case Num(text) => IsNumber(text)
    case Arr(items) => forall i <- items :: NumbersOk(i)
    case Obj(members) => forall m <- members :: NumbersOk(m.value)
    case _ => true
  }

  /** What may follow a value: not something that would go on as a number. */
  predicate Delimited(rest: string) {
    rest == "" || !IsNumChar(rest[0])
  }

  predicate IsSpace(c: char) {
    c == ' ' || c == '\n' || c == '\r' || c == '\t'
  }

  lemma {:induction false} SkipSpaces(n: nat, t: string)
    ensures SkipSpace(Spaces(n) + t) == SkipSpace(t)
  {
    if n == 0 {
      assert Spaces(0) + t == t;
    } else {
      assert (Spaces(n) + t)[1..] == Spaces(n - 1) + t;
      SkipSpaces(n - 1, t);
    }
  }

  lemma SkipNewLine(width: int, depth: nat, t: string)
    ensures SkipSpace(NewLine(width, depth) + t) == SkipSpace(t)
  {
    if width <= 0 {
      assert NewLine(width, depth) + t == t;
    } else {
      assert (NewLine(width, depth) + t)[1..] == Spaces(width * depth) + t;
      SkipSpaces(width * depth, t);
    }
  }

  lemma {:induction false} NumRunOf(text: string, rest: string)
    requires (forall i | 0 <= i < |text| :: IsNumChar(text[i])) && Delimited(rest)
    ensures NumRun(text + rest) == |text|
  {
    if text == "" {
      assert text + rest == rest;
    } else {
      assert (text + rest)[1..] == text[1..] + rest;
      NumRunOf(text[1..], rest);
    }
  }

  lemma {:induction false} DigitsAreNumChars(s: string)
    ensures forall i | 0 <= i < DigitRun(s) :: IsNumChar(s[i])
  {
    forall i | 0 <= i < DigitRun(s)
      ensures IsNumChar(s[i])
    {
      assert IsDigit(s[..DigitRun(s)][i]);
    }
  }

  lemma ExponentIsNumChars(s: string)
    requires IsExponent(s)
    ensures forall i | 0 <= i < |s| :: IsNumChar(s[i])
  {
    if s != "" {
      var t := if |s| > 1 && (s[1] == '+' || s[1] == '-') then s[2..] else s[1..];
      DigitsAreNumChars(t);
      var d := |s| - |t|;
      assert forall i | d <= i < |s| :: s[i] == t[i - d];
    }
  }

  lemma FractionIsNumChars(u: string)
    requires IsFraction(u)
    ensures forall i | 0 <= i < |u| :: IsNumChar(u[i])
  {
    if u != "" && u[0] == '.' {
      var m := DigitRun(u[1..]);
      var v := u[1 + m..];
      DigitsAreNumChars(u[1..]);
      ExponentIsNumChars(v);
      assert forall i | 0 <= i < m :: u[1..][i] == u[i + 1];
      assert forall i | m + 1 <= i < |u| :: u[i] == v[i - m - 1];
    } else {
      ExponentIsNumChars(u);
    }
  }

  lemma UnsignedIsNumChars(t: string)
    requires IsUnsigned(t)
    ensures t != "" && forall i | 0 <= i < |t| :: IsNumChar(t[i])
  {
    var n := DigitRun(t);
    DigitsAreNumChars(t);
    FractionIsNumChars(t[n..]);
    assert forall i | n <= i < |t| :: t[i] == t[n..][i - n];
  }

  lemma NumberIsNumChars(s: string)
    requires IsNumber(s)
    ensures s != "" && forall i | 0 <= i < |s| :: IsNumChar(s[i])
  {
    if s != "" && s[0] == '-' {
      UnsignedIsNumChars(s[1..]);
      assert forall i | 1 <= i < |s| :: s[i] == s[1..][i - 1];
    } else {
      UnsignedIsNumChars(s);
    }
  }

  lemma ReadIsAtom(s: string)
    requires s != "" && IsNumChar(s[0])
    ensures Read(s) == ReadAtom(s)
  {
    hide ReadAtom, ReadString;
  }

  lemma AtomIsNumber(s: string)
    requires s != "" && IsNumChar(s[0])
    requires var n := NumRun(s); n > 0 && IsNumber(s[..n])
    ensures ReadAtom(s) == Some((Num(s[..NumRun(s)]), s[NumRun(s)..]))
  {
    hide NumRun, IsNumber;
  }

  /** The text of a number is read back as it stands. */
  lemma ReadNumber(text: string, rest: string)
    requires IsNumber(text) && Delimited(rest)
    ensures Read(text + rest) == Some((Num(text), rest))
  {
    hide *;
    var s := text + rest;
    NumberIsNumChars(text);
    NumRunOf(text, rest);
    assert s[0] == text[0];
    assert s[..|text|] == text && s[|text|..] == rest;
    ReadIsAtom(s);
    AtomIsNumber(s);
  }

  lemma ReadWord(word: string, rest: string)
    requires word == "null" || word == "true" || word == "false"
    ensures Read(word + rest) == Some((if word == "null" then Null else Bool(word == "true"), rest))
  {
    var s := word + rest;
    assert s[..|word|] == word && s[|word|..] == rest;
  }

  lemma ReadLiteral(v: string, rest: string)
    ensures Read(Escaped(v) + rest) == Some((Str(v), rest))
    ensures Escaped(v) + rest != "" && (Escaped(v) + rest)[0] == '"'
    ensures ReadString((Escaped(v) + rest)[1..]) == Some((v, rest))
  {
    hide Read, ReadString;
    var s := Escaped(v) + rest;
    UnescapeInvertsEscape(v, rest);
    assert s[1..] == EscapedBody(v) + "\"" + rest;
    ReadQuoted(s, v, rest);
  }

  lemma ReadQuoted(s: string, v: string, rest: string)
    requires s != "" && s[0] == '"' && ReadString(s[1..]) == Some((v, rest))
    ensures Read(s) == Some((Str(v), rest))
  {
    hide ReadString;
  }

  lemma ReadSkips(s: string, t: string)
    requires SkipSpace(s) == SkipSpace(t)
    ensures Read(s) == Read(t)
  {}

  /** The text of a value starts with a character that is neither white space nor a closing bracket. */
  lemma TextStarts(j: JsonTree, width: int, depth: nat, rest: string)
    requires NumbersOk(j)
    ensures var t := TextTo(j, width, depth, rest); t != "" && !IsSpace(t[0]) && t[0] != ']' && t[0] != '}'
  {
    if j.Num? { NumberIsNumChars(j.text); }
  }

  /** A value's text is read back as the value, at any indent and depth. */
  lemma {:induction false} ReadText(j: JsonTree, width: int, depth: nat, rest: string)
    requires NumbersOk(j) && Delimited(rest)
    ensures Read(TextTo(j, width, depth, rest)) == Some((j, rest))
    decreases j, 0
  {
    hide Read, ReadItems, ReadMembers, SkipSpace;
    match j
    case Null => ReadWord("null", rest);
    case Bool(b) => ReadWord(if b then "true" else "false", rest);
    case Num(text) => ReadNumber(text, rest);
    case Str(v) => ReadLiteral(v, rest);
    case Arr(items) =>
      if items == [] {
        ReadEmpty("[", "]", rest);
      } else {
        var body := ItemsTo(items, width, depth + 1, false, NewLine(width, depth) + ("]" + rest));
        assert NewLine(width, depth) + "]" + rest == NewLine(width, depth) + ("]" + rest);
        ItemsStart(items, width, depth + 1, NewLine(width, depth) + ("]" + rest));
        ReadItemsText(items, width, depth + 1, depth, rest);
        ReadFullArray(body, items, rest);
      }
    case Obj(members) =>
      if members == [] {
        ReadEmpty("{", "}", rest);
      } else {
        var body := MembersTo(members, width, depth + 1, false, NewLine(width, depth) + ("}" + rest));
        assert NewLine(width, depth) + "}" + rest == NewLine(width, depth) + ("}" + rest);
        MembersStart(members, width, depth + 1, NewLine(width, depth) + ("}" + rest));
        ReadMembersText(members, width, depth + 1, depth, rest);
        ReadFullObject(body, members, rest);
      }
  }

  lemma ReadEmpty(open: string, close: string, rest: string)
    requires (open == "[" && close == "]") || (open == "{" && close == "}")
    ensures Read(open + ("" + close + rest)) == Some((if open == "[" then Arr([]) else Obj([]), rest))
  {
    var s := open + ("" + close + rest);
    assert s[1..] == close + rest && s[1..][1..] == rest;
  }

  lemma ReadFullArray(body: string, items: seq<JsonTree>, rest: string)
    requires ReadItems(body) == Some((items, rest))
    requires SkipSpace(body) != "" && SkipSpace(body)[0] != ']'
    ensures Read("[" + body) == Some((Arr(items), rest))
  {
    assert ("[" + body)[1..] == body;
  }

  lemma ReadFullObject(body: string, members: seq<Member>, rest: string)
    requires ReadMembers(body) == Some((members, rest))
    requires SkipSpace(body) != "" && SkipSpace(body)[0] != '}'
    ensures Read("{" + body) == Some((Obj(members), rest))
  {
    assert ("{" + body)[1..] == body;
  }

  lemma LastItem(s: string, item: JsonTree, tail: string, rest: string)
    requires Read(s) == Some((item, tail)) && SkipSpace(tail) == "]" + rest
    ensures ReadItems(s) == Some(([item], rest))
  {
    assert ("]" + rest)[1..] == rest;
  }

  lemma NextItem(s: string, item: JsonTree, tail: string, more: string, items: seq<JsonTree>, rest: string)
    requires Read(s) == Some((item, tail)) && SkipSpace(tail) == "," + more && ReadItems(more) == Some((items, rest))
    ensures ReadItems(s) == Some(([item] + items, rest))
  {
    assert ("," + more)[1..] == more;
  }

  /** The head of a member: its key, the colon, and the value behind it. */
  ghost predicate ReadsMember(s: string, m: Member, tail: string) {
    && SkipSpace(s) != "" && SkipSpace(s)[0] == '"'
    && ReadString(SkipSpace(s)[1..]).Some?
    && var (key, behind) := ReadString(SkipSpace(s)[1..]).value;
    && key == m.key && SkipSpace(behind) != "" && SkipSpace(behind)[0] == ':'
    && Read(SkipSpace(behind)[1..]) == Some((m.value, tail))
  }

  lemma LastMember(s: string, m: Member, tail: string, rest: string)
    requires ReadsMember(s, m, tail) && SkipSpace(tail) == "}" + rest
    ensures ReadMembers(s) == Some(([m], rest))
  {
    assert ("}" + rest)[1..] == rest;
  }

  lemma NextMember(s: string, m: Member, tail: string, more: string, members: seq<Member>, rest: string)
    requires ReadsMember(s, m, tail) && SkipSpace(tail) == "," + more && ReadMembers(more) == Some((members, rest))
    ensures ReadMembers(s) == Some(([m] + members, rest))
  {
    assert ("," + more)[1..] == more;
  }

  lemma ItemsStart(items: seq<JsonTree>, width: int, depth: nat, rest: string)
    requires items != [] && forall i <- items :: NumbersOk(i)
    ensures var t := TextTo(items[0], width, depth, ItemsTo(items[1..], width, depth, true, rest));
            && SkipSpace(ItemsTo(items, width, depth, false, rest)) == t
            && t != "" && t[0] != ']' && SkipSpace(t) == t
  {
    var t := TextTo(items[0], width, depth, ItemsTo(items[1..], width, depth, true, rest));
    TextStarts(items[0], width, depth, ItemsTo(items[1..], width, depth, true, rest));
    SkipNewLine(width, depth, t);
    assert Comma(false) + (NewLine(width, depth) + t) == NewLine(width, depth) + t;
  }

  lemma MembersStart(members: seq<Member>, width: int, depth: nat, rest: string)
    requires members != []
    ensures var t := MemberTo(members[0], width, depth, MembersTo(members[1..], width, depth, true, rest));
            && SkipSpace(MembersTo(members, width, depth, false, rest)) == t
            && t != "" && t[0] == '"' && SkipSpace(t) == t
  {
    var t := MemberTo(members[0], width, depth, MembersTo(members[1..], width, depth, true, rest));
    SkipNewLine(width, depth, t);
    assert Comma(false) + (NewLine(width, depth) + t) == NewLine(width, depth) + t;
  }

  /** What follows a value inside brackets: the closing line, or a comma and the rest. */
  lemma AfterItem(items: seq<JsonTree>, width: int, depth: nat, outer: nat, rest: string)
    ensures var closing := NewLine(width, outer) + ("]" + rest);
            var tail := ItemsTo(items, width, depth, true, closing);
            && Delimited(tail)
            && SkipSpace(tail) ==
               (if items == [] then "]" + rest else "," + ItemsTo(items, width, depth, false, closing))
  {
    var closing := NewLine(width, outer) + ("]" + rest);
    if items == [] {
      SkipNewLine(width, outer, "]" + rest);
      if width <= 0 { assert closing == "]" + rest; }
    } else {
      var t := NewLine(width, depth) + TextTo(items[0], width, depth, ItemsTo(items[1..], width, depth, true, closing));
      assert Comma(false) + t == t;
    }
  }

  lemma {:induction false} ReadItemsText(items: seq<JsonTree>, width: int, depth: nat, outer: nat, rest: string)
    requires items != [] && (forall i <- items :: NumbersOk(i))
    ensures ReadItems(ItemsTo(items, width, depth, false, NewLine(width, outer) + ("]" + rest))) == Some((items, rest))
    decreases items, 0
  {
    hide *;
    var closing := NewLine(width, outer) + ("]" + rest);
    var tail := ItemsTo(items[1..], width, depth, true, closing);
    var s := ItemsTo(items, width, depth, false, closing);
    AfterItem(items[1..], width, depth, outer, rest);
    assert items[0] in items;
    ReadText(items[0], width, depth, tail);
    ReadFirstItem(items, width, depth, closing, tail);
    assert items == [items[0]] + items[1..];
    if items[1..] == [] {
      assert items == [items[0]];
      LastItem(s, items[0], tail, rest);
    } else {
      assert forall i <- items[1..] :: i in items;
      ReadItemsText(items[1..], width, depth, outer, rest);
      NextItem(s, items[0], tail, ItemsTo(items[1..], width, depth, false, closing), items[1..], rest);
    }
  }

  lemma ReadFirstItem(items: seq<JsonTree>, width: int, depth: nat, closing: string, tail: string)
    requires items != [] && (forall i <- items :: NumbersOk(i))
             && tail == ItemsTo(items[1..], width, depth, true, closing)
    requires Read(TextTo(items[0], width, depth, tail)) == Some((items[0], tail))
    ensures Read(ItemsTo(items, width, depth, false, closing)) == Some((items[0], tail))
  {
    ItemsStart(items, width, depth, closing);
    ReadSkips(ItemsTo(items, width, depth, false, closing), TextTo(items[0], width, depth, tail));
  }

  lemma AfterMember(members: seq<Member>, width: int, depth: nat, outer: nat, rest: string)
    ensures var closing := NewLine(width, outer) + ("}" + rest);
            var tail := MembersTo(members, width, depth, true, closing);
            && Delimited(tail)
            && SkipSpace(tail) ==
               (if members == [] then "}" + rest else "," + MembersTo(members, width, depth, false, closing))
  {
    var closing := NewLine(width, outer) + ("}" + rest);
    if members == [] {
      SkipNewLine(width, outer, "}" + rest);
      if width <= 0 { assert closing == "}" + rest; }
    } else {
      var t := NewLine(width, depth)
               + MemberTo(members[0], width, depth, MembersTo(members[1..], width, depth, true, closing));
      assert Comma(false) + t == t;
    }
  }

  lemma {:induction false} ReadMembersText(members: seq<Member>, width: int, depth: nat, outer: nat, rest: string)
    requires members != [] && (forall m <- members :: NumbersOk(m.value))
    ensures ReadMembers(MembersTo(members, width, depth, false, NewLine(width, outer) + ("}" + rest)))
            == Some((members, rest))
    decreases members, 0
  {
    hide *;
    var closing := NewLine(width, outer) + ("}" + rest);
    var tail := MembersTo(members[1..], width, depth, true, closing);
    var s := MembersTo(members, width, depth, false, closing);
    var m := members[0];
    AfterMember(members[1..], width, depth, outer, rest);
    assert m in members;
    ReadText(m.value, width, depth, tail);
    MembersStart(members, width, depth, closing);
    ReadMemberHead(m, width, depth, tail, s);
    assert members == [m] + members[1..];
    if members[1..] == [] {
      assert members == [m];
      LastMember(s, m, tail, rest);
    } else {
      assert forall x <- members[1..] :: x in members;
      ReadMembersText(members[1..], width, depth, outer, rest);
      NextMember(s, m, tail, MembersTo(members[1..], width, depth, false, closing), members[1..], rest);
    }
  }

  lemma ReadMemberHead(m: Member, width: int, depth: nat, tail: string, s: string)
    requires SkipSpace(s) == MemberTo(m, width, depth, tail)
    requires Read(TextTo(m.value, width, depth, tail)) == Some((m.value, tail))
    ensures ReadsMember(s, m, tail)
  {
    var text := TextTo(m.value, width, depth, tail);
    var gap := (if width > 0 then " " else "") + text;
    ReadLiteral(m.key, ":" + gap);
    assert (":" + gap)[1..] == gap && SkipSpace(":" + gap) == ":" + gap;
    SkipSpaces(if width > 0 then 1 else 0, text);
    assert (if width > 0 then " " else "") == Spaces(if width > 0 then 1 else 0);
    ReadSkips(gap, text);
  }

  /** Whatever JSON value is written, at any indent width, the text is JSON and reads back as that value. */
  lemma WriterRoundTrip(j: JsonTree, width: int)
    requires NumbersOk(j)
    ensures Parse(Written(FRESH, width, j).out) == Some(j)
  {
    var text := Written(FRESH, width, j).out;
    WrittenIsText(FRESH, width, j, "");
    assert text + "" == text;
    ReadText(j, width, 0, "");
    assert Prepared(FRESH, width).out + TextTo(j, width, 0, "") == TextTo(j, width, 0, "");
  }
}
