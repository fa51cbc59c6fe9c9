/** Dictionaries as RFC 8941 shows them, and what its characters, blanks and numbers are. */
module FieldAnswers {
  import opened Records
  import opened Text
  import opened StructuredFields
  import opened SfRoundTrip
  import Base64

  function Name(name: string): string {
    "\"" + name + "\""
  }

  predicate Unescaped(s: string) {
    forall i :: 0 <= i < |s| ==> s[i] != '\\' && s[i] != '"'
  }

  lemma {:induction false} EscapePlain(s: string)
    requires Unescaped(s)
    ensures EscapeString(s) == s
  {
    if s != "" {
      EscapePlain(s[1..]);
      assert [s[0]] + s[1..] == s;
    }
  }

  // --- The examples of section 3.2 of RFC 8941 ---

  function Whole(n: nat): Item {
    Item(Num(n as real), None)
  }

  lemma DigitText(n: nat)
    requires n < 10
    ensures PrintBare(Num(n as real)) == Success([Digit(n)]) && PrintItem(Whole(n)) == Success([Digit(n)])
  {
    FiniteSmall(n);
    hide Finite;
    assert (n as real).Floor == n && Digits(n) == [Digit(n)];
    assert [Digit(n)] + "" == [Digit(n)];
  }

  lemma FiniteSmall(n: nat)
    requires n < 10
    ensures Finite(n as real)
  {
  }

  lemma TokenText(t: string)
    requires t == "bb" || t == "bar" || t == "joy" || t == "sadness"
    ensures PrintBare(Token(t)) == Success(t)
  {
    assert t[0] in t;
  }

  /** Two members, or more, have a comma and a blank between them. */
  lemma MemberThen(d: Dict, text: string, rest: string)
    requires |d| >= 2 && PrintMember(d[0].0, d[0].1) == Success(text) && PrintDict(d[1..]) == Success(rest)
    ensures PrintDict(d) == Success(text + ", " + rest)
  {
    hide PrintMember;
  }

  lemma LastMember(d: Dict, text: string)
    requires |d| == 1 && PrintMember(d[0].0, d[0].1) == Success(text)
    ensures PrintDict(d) == Success(text)
  {
    hide PrintMember;
  }

  lemma LettersValid(key: string)
    requires key != "" && forall c :: c in key ==> 'a' <= c <= 'z'
    ensures ValidKey(key)
  {
    assert key[0] in key;
  }

  lemma FlagText(key: string)
    requires ValidKey(key)
    ensures PrintParams(Flagged(key)) == Success(";" + key)
  {
    hide ValidKey;
    assert Flagged(key)[1..] == [] && PrintParams([]) == Success("");
    assert ";" + key + "" == ";" + key;
  }

  function Flagged(key: string): Params {
    [(key, Bool(true))]
  }

  lemma ParamText(key: string, t: string)
    requires ValidKey(key) && PrintBare(Token(t)) == Success(t)
    ensures PrintParams([(key, Token(t))]) == Success(";" + key + "=" + t)
  {
    hide ValidKey, PrintBare;
    var ps: Params := [(key, Token(t))];
    assert ps[1..] == [] && PrintParams([]) == Success("");
    var text := ";" + key + "=" + t;
    assert text + "" == text;
  }

  lemma PairText(key: string, a: Item, b: Item, x: string, y: string, ps: Option<Params>, tail: string)
    requires ValidKey(key) && PrintItem(a) == Success(x) && PrintItem(b) == Success(y)
    requires PrintParams(ps.GetOr([])) == Success(tail)
    ensures PrintMember(key, InnerList([a, b], ps)) == Success(key + "=" + ("(" + (x + " " + y) + ")" + tail))
  {
    hide ValidKey, PrintParams, PrintItem;
    assert [a, b][1..] == [b];
    assert PrintItems([b]) == Success(y);
  }

  lemma ItemText(key: string, value: BareItem, text: string, ps: Option<Params>, tail: string)
    requires ValidKey(key) && value != Bool(true) && PrintBare(value) == Success(text)
    requires PrintParams(ps.GetOr([])) == Success(tail)
    ensures PrintMember(key, Plain(Item(value, ps))) == Success(key + "=" + (text + tail))
  {
    hide ValidKey, PrintParams, PrintBare;
  }

  lemma BareText(key: string, ps: Option<Params>, tail: string)
    requires ValidKey(key) && PrintParams(ps.GetOr([])) == Success(tail)
    ensures PrintMember(key, Plain(Item(Bool(true), ps))) == Success(key + tail)
  {
    hide ValidKey, PrintParams;
  }

  lemma NoTail()
    ensures PrintParams(None.GetOr([])) == Success("")
  {
  }

  function Lists(): Dict {
    [("a", InnerList([Whole(1), Whole(2)], None)), ("b", Plain(Whole(3))),
     ("c", Plain(Item(Num(4.0), Some([("aa", Token("bb"))])))),
     ("d", InnerList([Whole(5), Whole(6)], Some(Flagged("valid"))))]
  }

  lemma MemberStrings()
    ensures "a" + "=" + ("(" + ("1" + " " + "2") + ")" + "") == "a=(1 2)"
    ensures "b" + "=" + ("3" + "") == "b=3"
    ensures ";" + "aa" + "=" + "bb" == ";aa=bb" && "c" + "=" + ("4" + ";aa=bb") == "c=4;aa=bb"
    ensures ";" + "valid" == ";valid" && "d" + "=" + ("(" + ("5" + " " + "6") + ")" + ";valid") == "d=(5 6);valid"
  {
  }

  lemma PairMembers()
    ensures PrintMember("a", Lists()[0].1) == Success("a=(1 2)")
    ensures PrintMember("d", Lists()[3].1) == Success("d=(5 6);valid")
  {
    NoTail();
    LettersValid("valid");
    LettersValid("a");
    LettersValid("d");
    FlagText("valid");
    DigitText(1);
    DigitText(2);
    DigitText(5);
    DigitText(6);
    MemberStrings();
    hide ValidKey, PrintParams, PrintBare, PrintItem, PrintMember, Flagged;
    PairText("a", Whole(1), Whole(2), "1", "2", None, "");
    PairText("d", Whole(5), Whole(6), "5", "6", Some(Flagged("valid")), ";valid");
  }

  lemma ItemMembers()
    ensures PrintMember("b", Lists()[1].1) == Success("b=3") && PrintMember("c", Lists()[2].1) == Success("c=4;aa=bb")
  {
    NoTail();
    TokenText("bb");
    LettersValid("aa");
    LettersValid("b");
    LettersValid("c");
    ParamText("aa", "bb");
    DigitText(3);
    DigitText(4);
    MemberStrings();
    hide ValidKey, PrintParams, PrintBare, PrintItem, PrintMember;
    ItemText("b", Num(3.0), "3", None, "");
    ItemText("c", Num(4.0), "4", Some([("aa", Token("bb"))]), ";aa=bb");
  }

  lemma ListsExample()
    ensures PrintDict(Lists())
         == Success("a=(1 2)" + ", " + ("b=3" + ", " + ("c=4;aa=bb" + ", " + "d=(5 6);valid")))
  {
    PairMembers();
    ItemMembers();
    hide PrintMember, PrintDict, Whole, Flagged;
    var d := Lists();
    var more, rest, last := d[1..], d[2..], d[3..];
    assert more[1..] == rest && rest[1..] == last;
    hide Lists;
    LastMember(last, "d=(5 6);valid");
    MemberThen(rest, "c=4;aa=bb", "d=(5 6);valid");
    MemberThen(more, "b=3", "c=4;aa=bb" + ", " + "d=(5 6);valid");
    MemberThen(d, "a=(1 2)", "b=3" + ", " + ("c=4;aa=bb" + ", " + "d=(5 6);valid"));
  }

  // Its other examples: a decimal and tokens, booleans, a string and bytes.

  lemma DecimalText()
    ensures PrintBare(Num(1.5)) == Success("1.5")
  {
    assert Finite(1.5) by {
      FiniteHalf();
    }
    hide Finite;
    assert (1.5).Floor == 1 && (1.5 * 1000.0 + 0.5).Floor == 1500;
    ThousandthsText();
  }

  lemma FiniteHalf()
    ensures Finite(1.5)
  {
  }

  lemma ThousandthsText()
    ensures PrintThousandths(1500) == "1.5"
  {
    DigitsOf1500();
    assert "1500"[..1] == "1" && "1500"[1..] == "500";
    TrimOf500();
    hide Digits, TrimZeros;
  }

  lemma DigitsOf1500()
    ensures Digits(1500) == "1500"
  {
    assert Digits(1) == "1" && Digits(15) == Digits(1) + "5";
    assert Digits(150) == Digits(15) + "0" && Digits(1500) == Digits(150) + "0";
  }

  lemma TrimOf500()
    ensures TrimZeros("500") == "5"
  {
    assert "500"[..2] == "50" && "50"[..1] == "5";
    assert TrimZeros("5") == "5" && TrimZeros("50") == "5";
  }

  lemma RatingExample()
    ensures PrintDict([("rating", Plain(Item(Num(1.5), None))),
                       ("feelings", InnerList([Item(Token("joy"), None), Item(Token("sadness"), None)], None))])
         == Success("rating=1.5" + ", " + "feelings=(joy sadness)")
  {
    NoTail();
    LettersValid("rating");
    LettersValid("feelings");
    DecimalText();
    TokenText("joy");
    TokenText("sadness");
    TokenItem("joy");
    TokenItem("sadness");
    RatingStrings();
    hide ValidKey, PrintParams, PrintBare, PrintItem, PrintMember;
    ItemText("rating", Num(1.5), "1.5", None, "");
    PairText("feelings", Item(Token("joy"), None), Item(Token("sadness"), None), "joy", "sadness", None, "");
    var d: Dict := [("rating", Plain(Item(Num(1.5), None))),
                    ("feelings", InnerList([Item(Token("joy"), None), Item(Token("sadness"), None)], None))];
    LastMember(d[1..], "feelings=(joy sadness)");
    MemberThen(d, "rating=1.5", "feelings=(joy sadness)");
  }

  lemma TokenItem(t: string)
    requires PrintBare(Token(t)) == Success(t)
    ensures PrintItem(Item(Token(t), None)) == Success(t)
  {
    NoTail();
    hide PrintBare, PrintParams;
    assert t + "" == t;
  }

  lemma RatingStrings()
    ensures "rating" + "=" + ("1.5" + "") == "rating=1.5"
    ensures "feelings" + "=" + ("(" + ("joy" + " " + "sadness") + ")" + "") == "feelings=(joy sadness)"
  {
  }

  lemma BooleansExample()
    ensures PrintDict([("a", Plain(Item(Bool(false), None))), ("b", Plain(Item(Bool(true), None))),
                       ("c", Plain(Item(Bool(true), Some([("foo", Token("bar"))]))))])
         == Success("a=?0" + ", " + ("b" + ", " + "c;foo=bar"))
  {
    NoTail();
    LettersValid("a");
    LettersValid("b");
    LettersValid("c");
    LettersValid("foo");
    TokenText("bar");
    ParamText("foo", "bar");
    assert "a" + "=" + ("?0" + "") == "a=?0" && "b" + "" == "b";
    assert ";" + "foo" + "=" + "bar" == ";foo=bar" && "c" + ";foo=bar" == "c;foo=bar";
    hide ValidKey, PrintParams, PrintItem, PrintMember;
    ItemText("a", Bool(false), "?0", None, "");
    BareText("b", None, "");
    BareText("c", Some([("foo", Token("bar"))]), ";foo=bar");
    var d: Dict := [("a", Plain(Item(Bool(false), None))), ("b", Plain(Item(Bool(true), None))),
                    ("c", Plain(Item(Bool(true), Some([("foo", Token("bar"))]))))];
    assert d[1..][1..] == d[2..];
    LastMember(d[2..], "c;foo=bar");
    MemberThen(d[1..], "b", "c;foo=bar");
    MemberThen(d, "a=?0", "b" + ", " + "c;foo=bar");
  }

  lemma LanguagesExample(text: string, bytes: seq<Byte>)
    requires Unescaped(text)
    ensures PrintDict([("en", Plain(Item(Str(text), None))), ("da", Plain(Item(Bytes(bytes), None)))])
         == Success("en" + "=" + Name(text) + ", " + ("da" + "=" + (":" + Base64.Encode(bytes) + ":")))
  {
    NoTail();
    LettersValid("en");
    LettersValid("da");
    EscapePlain(text);
    hide ValidKey, PrintParams, PrintItem, PrintMember, EscapeString, Base64.Encode, Unescaped;
    var pie, word := Name(text), ":" + Base64.Encode(bytes) + ":";
    ItemText("en", Str(text), pie, None, "");
    ItemText("da", Bytes(bytes), word, None, "");
    assert pie + "" == pie && word + "" == word;
    var d: Dict := [("en", Plain(Item(Str(text), None))), ("da", Plain(Item(Bytes(bytes), None)))];
    LastMember(d[1..], "da" + "=" + word);
    MemberThen(d, "en" + "=" + pie, "da" + "=" + word);
  }

  // --- Blanks ---

  ghost predicate AllBlank(b: string) {
    forall i :: 0 <= i < |b| ==> b[i] == ' ' || b[i] == '\t'
  }

  lemma {:induction false} BlanksGone(b: string, s: string)
    requires AllBlank(b)
    ensures SkipBlanks(b + s) == SkipBlanks(s)
  {
    if b == "" {
      assert b + s == s;
    } else {
      assert (b + s)[1..] == b[1..] + s && (b + s)[0] == b[0];
      BlanksGone(b[1..], s);
    }
  }

  /** Blanks are skipped before a dictionary and before the items of a list. */
  lemma BlanksSkipped(b: string, s: string, items: seq<Item>)
    requires AllBlank(b)
    ensures ParseDict(b + s) == ParseDict(s) && ParseItems(b + s, items) == ParseItems(s, items)
  {
    BlanksGone(b, s);
    hide SkipBlanks, ParseItem, ParseMembers;
  }

  /** And on both sides of a comma. */
  lemma BlanksAtComma(s: string, d: Dict, read: Dict, b: string, b': string, more: string)
    requires s != "" && ParseMember(s, d) == Ok(read, b + ("," + (b' + more)))
    requires AllBlank(b) && AllBlank(b')
    ensures ParseMembers(s, d) == ParseMembers(SkipBlanks(more), read)
  {
    hide SkipBlanks, ParseMember, AllBlank;
    BlanksGone(b, "," + (b' + more));
    BlanksGone(b', more);
    CommaStays(b' + more);
    assert ("," + (b' + more))[1..] == b' + more;
  }

  lemma CommaStays(s: string)
    ensures SkipBlanks("," + s) == "," + s
  {
    SpanOf(Blank, "", "," + s);
    assert "" + ("," + s) == "," + s;
  }

  /** Between the items of a list a blank is not optional. */
  lemma SpaceExpected(s: string, items: seq<Item>, item: Item, rest: string)
    requires ParseItem(s) == Ok(item, rest) && SkipBlanks(s) == s && !StartsWith(s, ')')
    requires !StartsWith(rest, ')') && !StartsWith(rest, ' ')
    ensures ParseItems(s, items) == Err(ExpectedInnerListSpace)
  {
    hide ParseItem, SkipBlanks;
  }

  // --- Characters and numbers ---

  const LOWER := "abcdefghijklmnopqrstuvwxyz"
  const UPPER := "ABCDEFGHIJKLMNOPQRSTUVWXYZ"
  const DIGITS := "0123456789"

  /** The characters of keys and of tokens, first and later ones. */
  lemma ClassesMean(c: char)
    ensures KeyChar(c) <==> c in LOWER || c in DIGITS || c in "_-.*"
    ensures TokenChar(c) <==> c in LOWER || c in UPPER || c in DIGITS || c in "!#$%&'*+-.^_`|~:/"
    ensures ValidKey([c]) <==> c in LOWER || c == '*'
    ensures ValidToken([c]) <==> c in LOWER || c in UPPER || c == '*'
  {
    LettersMean(c);
    hide IsLower, IsDigit;
    assert forall d :: d in [c] ==> d == c;
    assert [c][0] in [c];
  }

  lemma LettersMean(c: char)
    ensures (IsLower(c) <==> c in LOWER) && (IsAlpha(c) <==> c in LOWER || c in UPPER) && (IsDigit(c) <==> c in DIGITS)
  {
    LowerMeans(c);
    UpperMeans(c);
    DigitsMean(c);
    hide LOWER, UPPER, DIGITS;
  }

  lemma LowerMeans(c: char)
    ensures IsLower(c) <==> c in LOWER
  {
    assert IsLower(c) ==> LOWER[c as int - 'a' as int] == c;
  }

  lemma UpperMeans(c: char)
    ensures 'A' <= c <= 'Z' <==> c in UPPER
  {
    assert 'A' <= c <= 'Z' ==> UPPER[c as int - 'A' as int] == c;
  }

  lemma DigitsMean(c: char)
    ensures IsDigit(c) <==> c in DIGITS
  {
    assert IsDigit(c) ==> DIGITS[c as int - '0' as int] == c;
  }

  function TwoTo(k: nat): nat {
    if k == 0 then 1 else 2 * TwoTo(k - 1)
  }

  lemma {:induction false} TwoToAdd(a: nat, b: nat)
    ensures TwoTo(a + b) == TwoTo(a) * TwoTo(b)
  {
    if a > 0 {
      TwoToAdd(a - 1, b);
    }
  }

  lemma TwoTo97()
    ensures TwoTo(97) == TWO_TO_97 && TwoTo(54) == 0x40_0000_0000_0000
  {
    assert TwoTo(1) == 2 && TwoTo(3) == 8;
    hide TwoTo;
    TwoToAdd(3, 3);
    assert TwoTo(6) == 64;
    TwoToAdd(6, 6);
    assert TwoTo(12) == 4096;
    TwoToAdd(12, 12);
    assert TwoTo(24) == 0x100_0000;
    TwoToAdd(24, 24);
    assert TwoTo(48) == 0x1_0000_0000_0000;
    TwoToAdd(6, 48);
    TwoToAdd(48, 48);
    assert TwoTo(96) == 0x1_0000_0000_0000_0000_0000_0000;
    TwoToAdd(1, 96);
  }

  function Times(n: nat, c: nat): nat {
    if n == 0 then c else Times(n - 1, c) * TWO_TO_97
  }

  lemma {:induction false} TimesIs(n: nat, c: nat)
    ensures Times(n, c) == c * TwoTo(97 * n)
  {
    hide TwoTo;
    if n == 0 {
      assert TwoTo(0) == 1 by {
        TwoTo0();
      }
    } else {
      TimesIs(n - 1, c);
      TwoTo97();
      TwoToAdd(97 * (n - 1), 97);
      assert 97 * (n - 1) + 97 == 97 * n;
      hide TWO_TO_97;
      var t := TwoTo(97 * (n - 1));
      assert (c * t) * TWO_TO_97 == c * (t * TWO_TO_97);
    }
  }

  lemma TwoTo0()
    ensures TwoTo(0) == 1
  {
  }

  lemma InfiniteTimes()
    ensures INFINITE == Times(10, 0x3F_FFFF_FFFF_FFFF)
  {
    var c := 0x3F_FFFF_FFFF_FFFF;
    assert Times(2, c) == c * TWO_TO_97 * TWO_TO_97;
    assert Times(4, c) == Times(2, c) * TWO_TO_97 * TWO_TO_97;
    assert Times(6, c) == Times(4, c) * TWO_TO_97 * TWO_TO_97;
    assert Times(8, c) == Times(6, c) * TWO_TO_97 * TWO_TO_97;
    assert Times(10, c) == Times(8, c) * TWO_TO_97 * TWO_TO_97;
  }

  lemma InfiniteMeans()
    ensures INFINITE == TwoTo(1024) - TwoTo(970)
  {
    InfiniteTimes();
    TimesIs(10, 0x3F_FFFF_FFFF_FFFF);
    TwoTo97();
    TwoToAdd(54, 970);
    hide TwoTo, Times, INFINITE, TWO_TO_97;
  }

  /** The numbers that are written are those below 2^1024 less half a last place, and above the negative
      of that. */
  lemma FiniteMeans(x: real)
    ensures PrintBare(Num(x)) == Failure(NotFinite) <==>
        x >= (TwoTo(1024) - TwoTo(970)) as real || x <= (TwoTo(970) - TwoTo(1024)) as real
  {
    InfiniteMeans();
    hide TwoTo, INFINITE, PrintNumber;
  }
}
