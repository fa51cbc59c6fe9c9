/** A reader of JSON texts without insignificant white space, by the grammar of sections 2 to 7 of
    RFC 8259, and what it makes of canonical text. */
module JsonReader {
  import opened Records
  import opened Text
  import opened Json
  import opened StableJson
  import LineBreaks

  // --- The reader ---

  function HexValue(c: char): Option<nat> {
    if IsDigit(c) then Some(c as int - '0' as int)
    else if 'a' <= c <= 'f' then Some(c as int - 'a' as int + 10)
    else if 'A' <= c <= 'F' then Some(c as int - 'A' as int + 10)
    else None
  }

  function HexNumber(s: string): Option<nat> {
    if s == "" then Some(0)
    else
      match (HexNumber(s[..|s| - 1]), HexValue(s[|s| - 1]))
      case (Some(m), Some(n)) => Some(16 * m + n)
      case _ => None
  }

  /** The character an escape stands for, behind its backslash. */
  function ReadEscape(s: string): (r: Option<(char, string)>)
    ensures r.Some? ==> |r.value.1| < |s|
  {
    if s == "" then None
    else
      match s[0]
      case '"' => Some(('"', s[1..]))
      case '\\' => Some(('\\', s[1..]))
      case '/' => Some(('/', s[1..]))
      case 'b' => Some(('\U{8}', s[1..]))
      case 'f' => Some(('\U{C}', s[1..]))
      case 'n' => Some(('\n', s[1..]))
      case 'r' => Some(('\r', s[1..]))
      case 't' => Some(('\t', s[1..]))
      case 'u' =>
        if |s| < 5 then None
        else
          (match HexNumber(s[1..5])
           case Some(n) => if n < 0xD800 || 0xE000 <= n <= 0xFFFF then Some((n as char, s[5..])) else None
           case None => None)
      case _ => None
  }

  /** The characters up to the closing quotation mark. */
  function ReadString(s: string): (r: Option<(string, string)>)
    ensures r.Some? ==> |r.value.1| < |s|
    decreases |s|
  {
    if s == "" || s[0] < ' ' then None
    else if s[0] == '"' then Some(("", s[1..]))
    else
      match (if s[0] == '\\' then ReadEscape(s[1..]) else Some((s[0], s[1..])))
      case None => None
      case Some((c, more)) =>
        match ReadString(more)
        case None => None
        case Some((text, rest)) => Some(([c] + text, rest))
  }

  function ReadLiteral(s: string): Option<(Json, string)> {
    if "null" <= s then Some((Null, s[4..]))
    else if "true" <= s then Some((Bool(true), s[4..]))
    else if "false" <= s then Some((Bool(false), s[5..]))
    else
      var (number, rest) := Span(NumberChar, s);
      if number == "" then None else Some((Num(number), rest))
  }

  function ReadValue(s: string): (r: Option<(Json, string)>)
    ensures r.Some? ==> |r.value.1| < |s|
    decreases |s|, 0
  {
    if s == "" then None
    else if s[0] == '"' then
      match ReadString(s[1..])
      case None => None
      case Some((text, rest)) => Some((Str(text), rest))
    else if s[0] == '[' then
      if s[1..] != "" && s[1] == ']' then Some((Arr([]), s[2..]))
      else
        match ReadItems(s[1..])
        case None => None
        case Some((items, rest)) => Some((Arr(items), rest))
    else if s[0] == '{' then
      if s[1..] != "" && s[1] == '}' then Some((Obj([]), s[2..]))
      else
        match ReadMembers(s[1..])
        case None => None
        case Some((members, rest)) => Some((Obj(members), rest))
    else
      var r := ReadLiteral(s);
      assert r.Some? ==> |r.value.1| < |s| by {
        var (number, rest) := Span(NumberChar, s);
        assert number + rest == s;
      }
      r
  }

  /** The items up to the closing bracket. */
  function ReadItems(s: string): (r: Option<(seq<Json>, string)>)
    ensures r.Some? ==> |r.value.1| < |s|
    decreases |s|, 1
  {
    match ReadValue(s)
    case None => None
    case Some((item, more)) =>
      if more == "" then None
      else if more[0] == ']' then Some(([item], more[1..]))
      else if more[0] != ',' then None
      else
        match ReadItems(more[1..])
        case None => None
        case Some((items, rest)) => Some(([item] + items, rest))
  }

  /** The members up to the closing brace. */
  function ReadMembers(s: string): (r: Option<(seq<(string, Json)>, string)>)
    ensures r.Some? ==> |r.value.1| < |s|
    decreases |s|, 1
  {
    if s == "" || s[0] != '"' then None
    else
      match ReadString(s[1..])
      case None => None
      case Some((key, colon)) =>
        if colon == "" || colon[0] != ':' then None
        else
          match ReadValue(colon[1..])
          case None => None
          case Some((value, more)) =>
            if more == "" then None
            else if more[0] == '}' then Some(([(key, value)], more[1..]))
            else if more[0] != ',' then None
            else
              match ReadMembers(more[1..])
              case None => None
              case Some((members, rest)) => Some(([(key, value)] + members, rest))
  }

  /** The value of a whole text. */
  function ReadText(s: string): Option<Json> {
    match ReadValue(s)
    case None => None
    case Some((j, rest)) => if rest == "" then Some(j) else None
  }

  // --- Strings ---

  lemma HexBack(n: nat)
    requires n < 16
    ensures HexValue(HexDigit(n)) == Some(n)
  {
  }

  lemma HexStep(s: string, c: char)
    ensures HexNumber(s + [c])
         == match (HexNumber(s), HexValue(c)) case (Some(m), Some(n)) => Some(16 * m + n) case _ => None
  {
    assert (s + [c])[..|s|] == s;
  }

  lemma HexFour(a: char, b: char, c: char, d: char)
    ensures var n := HexNumber([a, b, c, d]);
            match (HexValue(a), HexValue(b), HexValue(c), HexValue(d))
            case (Some(x), Some(y), Some(z), Some(w)) => n == Some(16 * (16 * (16 * x + y) + z) + w)
            case _ => n == None
  {
    assert HexNumber("") == Some(0);
    HexStep("", a);
    HexStep([a], b);
    HexStep([a, b], c);
    HexStep([a, b, c], d);
    hide HexValue, HexNumber;
    assert "" + [a] == [a] && [a] + [b] == [a, b] && [a, b] + [c] == [a, b, c] && [a, b, c] + [d] == [a, b, c, d];
  }

  lemma HexNumberBack(m: nat, n: nat)
    requires m < 16 && n < 16
    ensures HexNumber(['0', '0', HexDigit(m), HexDigit(n)]) == Some(16 * m + n)
  {
    HexBack(m);
    HexBack(n);
    hide HexDigit;
    HexFour('0', '0', HexDigit(m), HexDigit(n));
  }

  /** One character, however it is written, is read back. */
  lemma EscapeBack(c: char, rest: string)
    ensures var s := Escape(c) + rest;
            s != "" && s[0] >= ' ' && s[0] != '"' &&
            (if s[0] == '\\' then ReadEscape(s[1..]) else Some((s[0], s[1..]))) == Some((c, rest))
  {
    var s := Escape(c) + rest;
    assert s[|Escape(c)|..] == rest;
    if |Escape(c)| == 6 {
      HexNumberBack(c as int / 16, c as int % 16);
      hide HexDigit, HexNumber;
      assert s[1..][1..5] == ['0', '0', HexDigit(c as int / 16), HexDigit(c as int % 16)];
      assert s[1..][5..] == rest;
    } else if |Escape(c)| == 2 {
      assert s[1..][1..] == rest;
    }
  }

  /** No capital letter, apart from one that stands for itself. */
  ghost predicate Plain(e: string) {
    |e| == 1 || forall c :: c in e ==> !('A' <= c <= 'Z')
  }

  lemma HexLower(h: char, n: nat)
    requires n < 16 && HexValue(h) == Some(n) && !('A' <= h <= 'Z')
    ensures h == HexDigit(n)
  {
  }

  lemma FourValues(x: nat, y: nat, z: nat, w: nat, v: nat)
    requires x < 16 && y < 16 && z < 16 && w < 16 && v < 32 && v == 16 * (16 * (16 * x + y) + z) + w
    ensures x == 0 && y == 0 && z == v / 16 && w == v % 16
  {
  }

  lemma HexBelow(c: char)
    ensures HexValue(c).Some? ==> HexValue(c).value < 16
  {
  }

  lemma LongEscape(c: char, h: string)
    requires |h| == 4 && HexNumber(h) == Some(c as int) && c < ' '
    requires forall d :: d in h ==> !('A' <= d <= 'Z')
    ensures h == ['0', '0', HexDigit(c as int / 16), HexDigit(c as int % 16)]
  {
    hide HexNumber, HexDigit, HexValue;
    HexFour(h[0], h[1], h[2], h[3]);
    assert h == [h[0], h[1], h[2], h[3]];
    forall i | 0 <= i < 4
      ensures HexValue(h[i]).Some? && HexValue(h[i]).value < 16 && !('A' <= h[i] <= 'Z')
    {
      HexBelow(h[i]);
      assert h[i] in h;
    }
    var v := c as int;
    FourValues(HexValue(h[0]).value, HexValue(h[1]).value, HexValue(h[2]).value, HexValue(h[3]).value, v);
    HexLower(h[0], 0);
    HexLower(h[1], 0);
    HexLower(h[2], v / 16);
    HexLower(h[3], v % 16);
    HexZero();
  }

  lemma HexZero()
    ensures HexDigit(0) == '0'
  {
  }

  lemma ReadNone(s: string)
    requires ReadString(s) == Some(("", ""))
    ensures s == "\""
  {
    hide ReadEscape;
    assert s == [s[0]] + s[1..];
  }

  /** What is read as one character is that character, or an escape of it, to the end. */
  lemma ReadOne(s: string, c: char)
    requires ReadString(s) == Some(([c], ""))
    ensures s != "" && s[0] != '"' && s[0] >= ' ' &&
            (if s[0] == '\\' then ReadEscape(s[1..]) else Some((s[0], s[1..]))) == Some((c, "\""))
  {
    hide ReadEscape;
    var (d, more) := (if s[0] == '\\' then ReadEscape(s[1..]) else Some((s[0], s[1..]))).value;
    var (text, rest) := ReadString(more).value;
    assert [d] + text == [c] && rest == "";
    assert ([d] + text)[0] == d && |[d] + text| == 1 + |text|;
    assert text == "";
    ReadNone(more);
  }

  lemma EscapeOf(t: string, c: char)
    requires ReadEscape(t) == Some((c, "\""))
    ensures t != ""
    ensures (t == [t[0]] + "\"" && ((t == "/\"" && c == '/') || Escape(c) == ['\\', t[0]])) ||
            (|t| == 6 && t[0] == 'u' && HexNumber(t[1..5]) == Some(c as int))
  {
    hide HexNumber, HexDigit;
    assert t == [t[0]] + t[1..];
    if t[0] == 'u' {
      assert t[5..] == "\"";
    }
  }

  lemma EscapeSizes(c: char)
    ensures |Escape(c)| == 1 || |Escape(c)| == 2 || |Escape(c)| == 6
    ensures c >= ' ' && c != '"' && c != '\\' ==> Escape(c) == [c]
    ensures |Escape(c)| == 6 ==> c < ' '
    ensures |Escape(c)| == 6 ==> Escape(c) == "\\u" + ['0', '0', HexDigit(c as int / 16), HexDigit(c as int % 16)]
  {
    hide HexDigit;
  }

  lemma Escaped(c: char, e: string)
    requires e != "" && e[0] == '\\' && ReadEscape(e[1..] + "\"") == Some((c, "\""))
    ensures |Escape(c)| <= |e| && (|e| == |Escape(c)| && Plain(e) ==> e == Escape(c))
  {
    hide HexNumber, HexDigit, ReadEscape, Escape;
    EscapeSizes(c);
    var t := e[1..] + "\"";
    EscapeOf(t, c);
    if |t| == 6 && t[0] == 'u' {
      var h := e[2..];
      assert t[1..5] == h && e == "\\u" + h;
      if |Escape(c)| == 6 && Plain(e) {
        assert forall d :: d in h ==> d in e;
        LongEscape(c, h);
      }
    } else {
      assert |t| == 2 && e == ['\\', t[0]];
    }
  }

  lemma Unescaped(c: char, e: string)
    requires e != "" && e[0] == c && c >= ' ' && c != '"' && c != '\\' && e[1..] + "\"" == "\""
    ensures e == Escape(c)
  {
    hide Escape, HexDigit;
    EscapeSizes(c);
    assert |e[1..] + "\""| == 1;
    assert e == [c];
  }

  lemma FrontOf(e: string, s: string)
    requires s == e + "\"" && s[0] != '"'
    ensures e != "" && s[0] == e[0] && s[1..] == e[1..] + "\""
  {
    assert e == "" ==> s == "\"";
  }

  /** No text that is read as this character is shorter, and none other as short goes without capitals. */
  lemma EscapeShortest(c: char, e: string)
    requires ReadString(e + "\"") == Some(([c], ""))
    ensures |Escape(c)| <= |e| && (|e| == |Escape(c)| && Plain(e) ==> e == Escape(c))
  {
    hide HexNumber, HexDigit, ReadString, ReadEscape, Escape, Plain;
    var s := e + "\"";
    ReadOne(s, c);
    FrontOf(e, s);
    if s[0] == '\\' {
      Escaped(c, e);
    } else {
      Unescaped(c, e);
    }
  }

  lemma {:induction false} StringBack(text: string, rest: string)
    ensures ReadString(EscapeAll(text) + ("\"" + rest)) == Some((text, rest))
  {
    if text == "" {
      assert EscapeAll(text) + ("\"" + rest) == "\"" + rest;
    } else {
      hide Escape, ReadEscape;
      var more := EscapeAll(text[1..]) + ("\"" + rest);
      EscapeBack(text[0], more);
      StringBack(text[1..], rest);
      LineBreaks.Associate(Escape(text[0]), EscapeAll(text[1..]), "\"" + rest);
      assert [text[0]] + text[1..] == text;
    }
  }

  lemma QuoteBack(text: string, rest: string)
    ensures var s := Quote(text) + rest; s != "" && s[0] == '"' && ReadString(s[1..]) == Some((text, rest))
  {
    StringBack(text, rest);
    LineBreaks.Associate(EscapeAll(text), "\"", rest);
    TailOf('"', EscapeAll(text), "\"", rest);
  }

  // --- Values ---

  /** The members of every object are in the order of their names. */
  ghost predicate InOrder(j: Json) {
    match j
    case Arr(items) => forall i :: 0 <= i < |items| ==> InOrder(items[i])
    case Obj(members) => Sorted(Keys(members)) && forall i :: 0 <= i < |members| ==> InOrder(members[i].1)
    case _ => true
  }

  /** `k` is `j` with the members of every object put in order. */
  ghost predicate Ordered(j: Json, k: Json) {
    WellFormed(k) && InOrder(k) && Meaning(k) == Meaning(j)
  }

  lemma WordBack(j: Json, x: string)
    requires j.Null? || j.Bool?
    ensures ReadLiteral(Stable(j) + x) == Some((j, x))
  {
    var s := Stable(j) + x;
    assert s[|Stable(j)|..] == x && s[0] == Stable(j)[0] && Stable(j) <= s;
  }

  lemma NumberBack(number: NumberText, x: string)
    requires Delimits(x)
    ensures ReadLiteral(number + x) == Some((Num(number), x))
  {
    SpanOf(NumberChar, number, x);
    assert NumberChar(number[0]) && (number + x)[0] == number[0];
  }

  lemma LiteralBack(j: Json, x: string)
    requires (j.Null? || j.Bool? || j.Num?) && Delimits(x)
    ensures ReadValue(Stable(j) + x) == Some((j, x))
  {
    hide ReadLiteral, ReadString, ReadItems, ReadMembers;
    var s := Stable(j) + x;
    FirstChar(j);
    assert s[0] == Stable(j)[0];
    if j.Num? {
      NumberBack(j.number, x);
    } else {
      WordBack(j, x);
    }
  }

  lemma {:induction false} ValueBack(j: Json, x: string) returns (k: Json)
    requires WellFormed(j) && Delimits(x)
    ensures ReadValue(Stable(j) + x) == Some((k, x)) && Ordered(j, k)
    decreases j
  {
    match j {
      case Str(text) =>
        hide Quote;
        QuoteBack(text, x);
        k := j;
      case Arr(items) =>
        k := ArrayBack(items, x);
      case Obj(members) =>
        k := ObjectBack(members, x);
      case _ =>
        LiteralBack(j, x);
        k := j;
    }
  }

  lemma NoBracket(j: Json)
    requires WellFormed(j)
    ensures Stable(j) != "" && Stable(j)[0] != ']'
  {
    FirstChar(j);
    hide Stable, WellFormed;
  }

  lemma ItemsStart(items: seq<Json>, x: string)
    requires items != [] && forall i :: 0 <= i < |items| ==> WellFormed(items[i])
    ensures var s := ItemsText(items) + ("]" + x); s != "" && s[0] != ']'
  {
    hide Stable, ItemsText, WellFormed, Delimits;
    var tail := ItemsCons(items, x);
    NoBracket(items[0]);
    FirstOf(ItemsText(items) + ("]" + x), Stable(items[0]), tail);
  }

  lemma FirstOf(s: string, first: string, tail: string)
    requires s == first + tail && first != ""
    ensures s != "" && s[0] == first[0]
  {
  }

  /** A bracket, not closed at once, opens what `ReadItems` reads, and a brace what `ReadMembers` does. */
  lemma Opens(s: string)
    requires |s| >= 2
    ensures s[0] == '[' && s[1] != ']' && ReadItems(s[1..]).Some? ==>
        ReadValue(s) == Some((Arr(ReadItems(s[1..]).value.0), ReadItems(s[1..]).value.1))
    ensures s[0] == '{' && s[1] != '}' && ReadMembers(s[1..]).Some? ==>
        ReadValue(s) == Some((Obj(ReadMembers(s[1..]).value.0), ReadMembers(s[1..]).value.1))
  {
    hide ReadItems, ReadMembers, ReadLiteral, ReadString;
  }

  lemma OpensEmpty(x: string)
    ensures ReadValue("[" + "" + "]" + x) == Some((Arr([]), x))
    ensures ReadValue("{" + "" + "}" + x) == Some((Obj([]), x))
  {
    var a, o := "[" + "" + "]" + x, "{" + "" + "}" + x;
    assert a[0] == '[' && a[1] == ']' && a[2..] == x && o[0] == '{' && o[1] == '}' && o[2..] == x;
  }

  lemma {:induction false} ArrayBack(items: seq<Json>, x: string) returns (k: Json)
    requires WellFormed(Arr(items))
    ensures ReadValue(Stable(Arr(items)) + x) == Some((k, x)) && Ordered(Arr(items), k)
    decreases items, 1
  {
    hide ReadItems, ReadValue, Meaning, InOrder, WellFormed;
    ArrayParts(items, items);
    hide Stable;
    if items == [] {
      assert ItemsText(items) == "";
      OpensEmpty(x);
      k := Arr([]);
      ItemsOrdered([], []);
    } else {
      hide ItemsText;
      ItemsStart(items, x);
      var ks := ItemsBack(items, x);
      k := Arr(ks);
      ItemsOrdered(items, ks);
      TailOf('[', ItemsText(items), "]", x);
      var s := Stable(Arr(items)) + x;
      assert s[0] == '[' && s[1..] == ItemsText(items) + ("]" + x) && s[1] == s[1..][0];
      Opens(s);
    }
  }

  lemma ItemsOrdered(items: seq<Json>, ks: seq<Json>)
    requires |ks| == |items| && forall i :: 0 <= i < |ks| ==> Ordered(items[i], ks[i])
    ensures Ordered(Arr(items), Arr(ks))
  {
    assert Meanings(ks) == Meanings(items);
  }

  /** Reading on behind an item. */
  lemma ItemStep(s: string, k: Json, tail: string)
    requires ReadValue(s) == Some((k, tail)) && tail != ""
    ensures tail[0] == ']' ==> ReadItems(s) == Some(([k], tail[1..]))
    ensures tail[0] == ',' && ReadItems(tail[1..]).Some? ==>
        ReadItems(s) == Some(([k] + ReadItems(tail[1..]).value.0, ReadItems(tail[1..]).value.1))
  {
    hide ReadValue;
  }

  /** And behind all that follow. */
  lemma ItemsStep(s: string, k: Json, tail: string, more: string, rest: seq<Json>, x: string)
    requires ReadValue(s) == Some((k, tail)) && tail == "," + more && ReadItems(more) == Some((rest, x))
    ensures ReadItems(s) == Some(([k] + rest, x))
  {
    hide ReadValue, ReadItems;
    assert tail[1..] == more;
    ItemStep(s, k, tail);
  }

  lemma LastItem(s: string, k: Json, x: string)
    requires ReadValue(s) == Some((k, "]" + x))
    ensures ReadItems(s) == Some(([k], x))
  {
    hide ReadValue, ReadItems;
    assert ("]" + x)[1..] == x;
    ItemStep(s, k, "]" + x);
  }

  lemma {:induction false} ItemsBack(items: seq<Json>, x: string) returns (ks: seq<Json>)
    requires items != [] && forall i :: 0 <= i < |items| ==> WellFormed(items[i])
    ensures ReadItems(ItemsText(items) + ("]" + x)) == Some((ks, x))
    ensures |ks| == |items| && forall i :: 0 <= i < |ks| ==> Ordered(items[i], ks[i])
    decreases items, 0
  {
    hide ReadItems, ReadValue, Stable, WellFormed, Ordered, Delimits;
    var tail := ItemsCons(items, x);
    var k := ValueBack(items[0], tail);
    if |items| == 1 {
      assert items[1..] == [] && ItemsText([]) == "";
      assert "" + ("" + ("]" + x)) == "]" + x;
      LastItem(ItemsText(items) + ("]" + x), k, x);
      ks := [k];
    } else {
      hide ItemsText;
      var rest := ItemsBack(items[1..], x);
      ItemsStep(ItemsText(items) + ("]" + x), k, tail, ItemsText(items[1..]) + ("]" + x), rest, x);
      ks := [k] + rest;
    }
  }

  // --- Objects ---

  lemma MembersStart(members: seq<(string, Json)>, keys: seq<string>, x: string)
    requires WellFormed(Obj(members)) && keys != [] && forall i :: 0 <= i < |keys| ==> keys[i] in Keys(members)
    ensures MembersFormed(members, keys)
    ensures var s := MembersText(members, keys) + ("}" + x); s != "" && s[0] == '"'
  {
    hide Stable, MembersText, Member, Delimits;
    var tail := MembersCons(members, keys, x);
    QuoteFirst(keys[0]);
    hide Quote;
    FirstOf(MembersText(members, keys) + ("}" + x), Quote(keys[0]), [':'] + (Stable(Member(members, keys[0])) + tail));
  }

  ghost predicate MembersFormed(members: seq<(string, Json)>, keys: seq<string>) {
    (forall i :: 0 <= i < |members| ==> WellFormed(members[i].1)) &&
    forall i :: 0 <= i < |keys| ==> keys[i] in Keys(members) && WellFormed(Member(members, keys[i]))
  }

  /** Reading on behind a member. */
  lemma MemberStep(s: string, key: string, colon: string, k: Json, tail: string)
    requires s != "" && s[0] == '"' && ReadString(s[1..]) == Some((key, colon)) && colon != "" && colon[0] == ':'
    requires ReadValue(colon[1..]) == Some((k, tail)) && tail != ""
    ensures tail[0] == '}' ==> ReadMembers(s) == Some(([(key, k)], tail[1..]))
    ensures tail[0] == ',' && ReadMembers(tail[1..]).Some? ==>
        ReadMembers(s) == Some(([(key, k)] + ReadMembers(tail[1..]).value.0, ReadMembers(tail[1..]).value.1))
  {
    hide ReadValue, ReadString;
  }

  lemma MembersStep(s: string, key: string, k: Json, colon: string, tail: string, more: string,
      rest: seq<(string, Json)>, x: string)
    requires s != "" && s[0] == '"' && ReadString(s[1..]) == Some((key, [':'] + colon))
    requires ReadValue(colon) == Some((k, tail)) && tail == "," + more && ReadMembers(more) == Some((rest, x))
    ensures ReadMembers(s) == Some(([(key, k)] + rest, x))
  {
    hide ReadValue, ReadMembers, ReadString;
    assert tail[1..] == more && ([':'] + colon)[1..] == colon;
    MemberStep(s, key, [':'] + colon, k, tail);
  }

  lemma LastMember(s: string, key: string, k: Json, colon: string, x: string)
    requires s != "" && s[0] == '"' && ReadString(s[1..]) == Some((key, [':'] + colon))
    requires ReadValue(colon) == Some((k, "}" + x))
    ensures ReadMembers(s) == Some(([(key, k)], x))
  {
    hide ReadValue, ReadMembers, ReadString;
    assert ("}" + x)[1..] == x && ([':'] + colon)[1..] == colon;
    MemberStep(s, key, [':'] + colon, k, "}" + x);
  }

  ghost predicate MembersOrdered(members: seq<(string, Json)>, keys: seq<string>, ms: seq<(string, Json)>) {
    |ms| == |keys| && forall i :: 0 <= i < |ms| ==>
      ms[i].0 == keys[i] && keys[i] in Keys(members) && Ordered(Member(members, keys[i]), ms[i].1)
  }

  lemma OrderedCons(members: seq<(string, Json)>, keys: seq<string>, k: Json, rest: seq<(string, Json)>)
    requires keys != [] && keys[0] in Keys(members) && Ordered(Member(members, keys[0]), k)
    requires MembersOrdered(members, keys[1..], rest)
    ensures MembersOrdered(members, keys, [(keys[0], k)] + rest)
  {
    hide Ordered, Keys, Member;
  }

  lemma OneMember(members: seq<(string, Json)>, keys: seq<string>)
    requires |keys| == 1 && MembersFormed(members, keys)
    ensures keys[1..] == [] && MembersText(members, keys[1..]) == "" && MembersOrdered(members, keys[1..], [])
  {
    assert keys[1..] == [];
  }

  lemma {:induction false} MembersBack(members: seq<(string, Json)>, keys: seq<string>, x: string)
      returns (ms: seq<(string, Json)>)
    requires WellFormed(Obj(members)) && keys != [] && forall i :: 0 <= i < |keys| ==> keys[i] in Keys(members)
    ensures MembersFormed(members, keys)
    ensures ReadMembers(MembersText(members, keys) + ("}" + x)) == Some((ms, x))
    ensures MembersOrdered(members, keys, ms)
    decreases members, |keys|
  {
    MembersStart(members, keys, x);
    hide ReadMembers, ReadValue, ReadString, Stable, WellFormed, Ordered, Member, Delimits, Keys, MembersText;
    var tail := MembersCons(members, keys, x);
    var value := Member(members, keys[0]);
    var k := ValueBack(value, tail);
    var s, colon := MembersText(members, keys) + ("}" + x), Stable(value) + tail;
    QuoteBack(keys[0], [':'] + colon);
    hide Quote, MembersOrdered;
    if |keys| == 1 {
      OneMember(members, keys);
      assert "" + ("" + ("}" + x)) == "}" + x;
      LastMember(s, keys[0], k, colon, x);
      OrderedCons(members, keys, k, []);
      ms := [(keys[0], k)];
      assert ms == [(keys[0], k)] + [];
    } else {
      var rest := MembersBack(members, keys[1..], x);
      MembersStep(s, keys[0], k, colon, tail, MembersText(members, keys[1..]) + ("}" + x), rest, x);
      OrderedCons(members, keys, k, rest);
      ms := [(keys[0], k)] + rest;
    }
  }

  lemma {:induction false} ObjectBack(members: seq<(string, Json)>, x: string) returns (k: Json)
    requires WellFormed(Obj(members))
    ensures ReadValue(Stable(Obj(members)) + x) == Some((k, x)) && Ordered(Obj(members), k)
    decreases members, |members| + 1
  {
    hide ReadMembers, ReadValue, Meaning, InOrder, Sort;
    ObjectParts(members, members);
    hide Stable, WellFormed, MeaningOfMembers;
    var keys := Sort(Keys(members));
    SortMultiset(Keys(members));
    assert |keys| == |multiset(keys)| == |multiset(Keys(members))| == |members|;
    if members == [] {
      assert MembersText(members, keys) == "";
      OpensEmpty(x);
      k := Obj([]);
      ObjectOrdered(members, []);
    } else {
      hide MembersText;
      MembersStart(members, keys, x);
      var ms := MembersBack(members, keys, x);
      k := Obj(ms);
      ObjectOrdered(members, ms);
      TailOf('{', MembersText(members, keys), "}", x);
      var s := Stable(Obj(members)) + x;
      assert s[0] == '{' && s[1..] == MembersText(members, keys) + ("}" + x) && s[1] == s[1..][0];
      Opens(s);
    }
  }

  lemma OnceMeans(a: seq<string>)
    requires forall k :: multiset(a)[k] <= 1
    ensures NoRepeats(a)
  {
    forall i, j | 0 <= i < j < |a|
      ensures a[i] != a[j]
    {
      var before, after := a[..j], a[j..];
      assert a == before + after && before[i] == a[i] && after[0] == a[j];
      assert multiset(a) == multiset(before) + multiset(after);
      assert a[i] in multiset(before) && a[j] in multiset(after);
      assert a[i] == a[j] ==> multiset(a)[a[i]] >= 2;
    }
  }

  lemma SortNoRepeats(keys: seq<string>)
    requires NoRepeats(keys)
    ensures NoRepeats(Sort(keys))
  {
    SortMultiset(keys);
    forall k
      ensures multiset(Sort(keys))[k] <= 1
    {
      OnceEach(keys, k);
    }
    OnceMeans(Sort(keys));
  }

  lemma ObjectOrdered(members: seq<(string, Json)>, ms: seq<(string, Json)>)
    requires WellFormed(Obj(members)) && MembersOrdered(members, Sort(Keys(members)), ms)
    ensures Ordered(Obj(members), Obj(ms))
  {
    hide Sort, Meaning, MeaningOfMembers, Member, IndexOf, Leq;
    var keys := Sort(Keys(members));
    SortSorted(Keys(members));
    SortKeeps(Keys(members));
    assert Keys(ms) == keys;
    assert NoRepeats(Keys(members));
    SortNoRepeats(Keys(members));
    assert forall i :: 0 <= i < |ms| ==> ms[i].0 == keys[i];
    assert Distinct(ms);
    forall k | k in Keys(ms)
      ensures k in Keys(members) && Meaning(Member(ms, k)) == Meaning(Member(members, k))
    {
      var i :| 0 <= i < |ms| && ms[i] == (k, Member(ms, k));
    }
    SameMembers(ms, members);
    MeaningOfObject(members);
    MeaningOfObject(ms);
  }

  lemma MeaningOfObject(members: seq<(string, Json)>)
    ensures Meaning(Obj(members)) == VObj(MeaningOfMembers(members))
  {
  }

  /** What is read from canonical text is the value that was written, its members in order. */
  lemma ReadStable(j: Json) returns (k: Json)
    requires WellFormed(j)
    ensures ReadText(Stable(j)) == Some(k) && Ordered(j, k)
  {
    hide ReadValue, Stable, Ordered;
    k := ValueBack(j, "");
    assert Stable(j) + "" == Stable(j);
  }

  /** Every number of section 6 of RFC 8259 is a number text: an integer, a fraction and an exponent. */
  lemma NumberTexts(whole: nat, fraction: string, exponent: nat)
    requires AllDigits(fraction)
    ensures forall c :: c in "-" + Digits(whole) + "." + fraction + "e+" + Digits(exponent) ==> NumberChar(c)
    ensures NumberChar('E')
  {
    hide Digits;
    assert forall c :: c in "e+" ==> NumberChar(c) by {
      assert "e+"[0] == 'e' && "e+"[1] == '+';
    }
  }
}
