/** Canonical request-body text: object keys sorted at every level. Equal text means equal
    values up to the order of object keys, and the other way round. */
module StableJson {
  import opened Records
  import opened Text
  import opened Json
  import LineBreaks

  // --- Sorting keys ---

  predicate Leq(a: string, b: string) {
    a == "" || (b != "" && (a[0] < b[0] || (a[0] == b[0] && Leq(a[1..], b[1..]))))
  }

  function Insert(key: string, keys: seq<string>): seq<string> {
    if keys == [] || Leq(key, keys[0]) then [key] + keys else [keys[0]] + Insert(key, keys[1..])
  }

  function Sort(keys: seq<string>): seq<string> {
    if keys == [] then [] else Insert(keys[0], Sort(keys[1..]))
  }

  function Keys(members: seq<(string, Json)>): (r: seq<string>)
    ensures |r| == |members|
  {
    seq(|members|, i requires 0 <= i < |members| => members[i].0)
  }

  // --- Text ---

  function HexDigit(n: nat): char
    requires n < 16
  {
    if n < 10 then ('0' as int + n) as char else ('a' as int + n - 10) as char
  }

  /** How one character appears inside a JSON string. */
  function Escape(c: char): string {
    if c == '"' then "\\\""
    else if c == '\\' then "\\\\"
    else if c == '\U{8}' then "\\b"
    else if c == '\U{C}' then "\\f"
    else if c == '\n' then "\\n"
    else if c == '\r' then "\\r"
    else if c == '\t' then "\\t"
    else if c < ' ' then ['\\', 'u', '0', '0', HexDigit(c as int / 16), HexDigit(c as int % 16)]
    else [c]
  }

  function EscapeAll(s: string): string {
    if s == "" then "" else Escape(s[0]) + EscapeAll(s[1..])
  }

  function Quote(s: string): string {
    "\"" + EscapeAll(s) + "\""
  }

  function ItemsText(items: seq<Json>): string
    requires forall i :: 0 <= i < |items| ==> WellFormed(items[i])
    decreases items
  {
    if items == [] then "" else Stable(items[0]) + (if |items| == 1 then "" else ",") + ItemsText(items[1..])
  }

  function Member(members: seq<(string, Json)>, key: string): (j: Json)
    requires key in Keys(members)
    ensures (members decreases to j)
    ensures exists i :: 0 <= i < |members| && members[i] == (key, j)
  {
    var i := IndexOf(members, key);
    assert Keys(members)[i] == members[i].0;
    assert members[i] in members && members[i].1 < members[i];
    members[i].1
  }

  function MembersText(members: seq<(string, Json)>, keys: seq<string>): string
    requires forall i :: 0 <= i < |members| ==> WellFormed(members[i].1)
    requires forall i :: 0 <= i < |keys| ==> keys[i] in Keys(members)
    decreases members, |keys|
  {
    if keys == [] then ""
    else
      Quote(keys[0]) + ":" + Stable(Member(members, keys[0])) + (if |keys| == 1 then "" else ",")
      + MembersText(members, keys[1..])
  }

  function Stable(j: Json): string
    requires WellFormed(j)
    decreases j
  {
    match j
    case Null => "null"
    case Bool(flag) => if flag then "true" else "false"
    case Num(number) => number
    case Str(text) => Quote(text)
    case Arr(items) => "[" + ItemsText(items) + "]"
    case Obj(members) =>
      SortKeeps(Keys(members));
      "{" + MembersText(members, Sort(Keys(members))) + "}"
  }

  // --- Sorting is a function of the set of keys ---

  lemma {:induction false} LeqTotal(a: string, b: string)
    ensures Leq(a, b) || Leq(b, a)
    ensures Leq(a, b) && Leq(b, a) ==> a == b
  {
    if a != "" && b != "" && a[0] == b[0] {
      LeqTotal(a[1..], b[1..]);
      assert a == [a[0]] + a[1..] && b == [b[0]] + b[1..];
    }
  }

  lemma {:induction false} LeqTransitive(a: string, b: string, c: string)
    requires Leq(a, b) && Leq(b, c)
    ensures Leq(a, c)
  {
    if a != "" && a[0] == b[0] && b[0] == c[0] {
      LeqTransitive(a[1..], b[1..], c[1..]);
    }
  }

  ghost predicate Sorted(keys: seq<string>) {
    forall i, j :: 0 <= i < j < |keys| ==> Leq(keys[i], keys[j])
  }

  lemma {:induction false} InsertKeeps(key: string, keys: seq<string>)
    ensures multiset(Insert(key, keys)) == multiset(keys) + multiset{key}
  {
    if keys != [] && !Leq(key, keys[0]) {
      InsertKeeps(key, keys[1..]);
      assert keys == [keys[0]] + keys[1..];
    }
  }

  lemma {:induction false} SortMultiset(keys: seq<string>)
    ensures multiset(Sort(keys)) == multiset(keys)
  {
    if keys != [] {
      SortMultiset(keys[1..]);
      InsertKeeps(keys[0], Sort(keys[1..]));
      assert keys == [keys[0]] + keys[1..];
    }
  }

  lemma SortKeeps(keys: seq<string>)
    ensures forall k :: k in Sort(keys) <==> k in keys
    ensures forall i :: 0 <= i < |Sort(keys)| ==> Sort(keys)[i] in keys
  {
    SortMultiset(keys);
    assert forall k :: k in Sort(keys) <==> k in multiset(Sort(keys));
    assert forall k :: k in keys <==> k in multiset(keys);
  }

  lemma {:induction false} InsertSorted(key: string, keys: seq<string>)
    requires Sorted(keys)
    ensures Sorted(Insert(key, keys))
  {
    hide Leq;
    if keys != [] {
      if Leq(key, keys[0]) {
        forall i | 0 <= i < |keys|
          ensures Leq(key, keys[i])
        {
          if 0 < i {
            LeqTransitive(key, keys[0], keys[i]);
          }
        }
      } else {
        LeqTotal(key, keys[0]);
        InsertSorted(key, keys[1..]);
        InsertKeeps(key, keys[1..]);
        var r := Insert(key, keys[1..]);
        forall i | 0 <= i < |r|
          ensures Leq(keys[0], r[i])
        {
          assert r[i] in multiset(r);
          if r[i] != key {
            assert r[i] in keys[1..];
          }
        }
      }
    }
  }

  lemma {:induction false} SortSorted(keys: seq<string>)
    ensures Sorted(Sort(keys))
  {
    if keys != [] {
      SortSorted(keys[1..]);
      InsertSorted(keys[0], Sort(keys[1..]));
    }
  }

  lemma SortedHead(a: seq<string>, b: seq<string>)
    requires Sorted(a) && Sorted(b) && a != [] && b != [] && a[0] in b && b[0] in a
    ensures a[0] == b[0]
  {
    hide Leq;
    LeqTotal(a[0], b[0]);
    LeqTotal(b[0], a[0]);
  }

  lemma {:induction false} SortedUnique(a: seq<string>, b: seq<string>)
    requires Sorted(a) && Sorted(b) && multiset(a) == multiset(b)
    ensures a == b
  {
    assert |a| == |multiset(a)| == |multiset(b)| == |b|;
    if a != [] {
      assert a[0] in multiset(b) && b[0] in multiset(a);
      SortedHead(a, b);
      hide Leq;
      assert Sorted(a[1..]) && Sorted(b[1..]);
      hide Sorted;
      assert a == [a[0]] + a[1..] && b == [b[0]] + b[1..];
      assert multiset(a[1..]) == multiset(a) - multiset{a[0]};
      SortedUnique(a[1..], b[1..]);
    }
  }

  ghost predicate NoRepeats(keys: seq<string>) {
    forall i, j :: 0 <= i < j < |keys| ==> keys[i] != keys[j]
  }

  lemma {:induction false} SameElements(a: seq<string>, b: seq<string>)
    requires NoRepeats(a) && NoRepeats(b) && forall k :: k in a <==> k in b
    ensures multiset(a) == multiset(b)
  {
    forall k
      ensures multiset(a)[k] == multiset(b)[k]
    {
      OnceEach(a, k);
      OnceEach(b, k);
    }
  }

  lemma {:induction false} OnceEach(a: seq<string>, k: string)
    requires NoRepeats(a)
    ensures multiset(a)[k] == if k in a then 1 else 0
  {
    if a != [] {
      OnceEach(a[1..], k);
      assert a == [a[0]] + a[1..];
    }
  }

  lemma SortedKeysAgree(a: seq<(string, Json)>, b: seq<(string, Json)>)
    requires Distinct(a) && Distinct(b) && forall k :: k in Keys(a) <==> k in Keys(b)
    ensures Sort(Keys(a)) == Sort(Keys(b))
  {
    SameElements(Keys(a), Keys(b));
    SortMultiset(Keys(a));
    SortMultiset(Keys(b));
    SortSorted(Keys(a));
    SortSorted(Keys(b));
    SortedUnique(Sort(Keys(a)), Sort(Keys(b)));
  }

  // --- Order-blind: equal values have equal text ---

  lemma {:induction false} MeaningAt(members: seq<(string, Json)>, key: string)
    requires Distinct(members)
    ensures key in MeaningOfMembers(members) <==> key in Keys(members)
    ensures key in Keys(members) ==> MeaningOfMembers(members)[key] == Meaning(Member(members, key))
  {
    if key in Keys(members) {
      var n :| 0 <= n < |members| && members[n].0 == key;
      MeaningAtIndex(members, n);
      IndexUnique(members, n);
    } else {
      assert forall n :: 0 <= n < |members| ==> Keys(members)[n] == members[n].0;
    }
  }

  lemma {:induction false} MeaningAtIndex(members: seq<(string, Json)>, n: nat)
    requires Distinct(members) && n < |members|
    ensures members[n].0 in MeaningOfMembers(members)
      && MeaningOfMembers(members)[members[n].0] == Meaning(members[n].1)
  {
    if n > 0 {
      MeaningAtIndex(members[1..], n - 1);
    }
  }

  lemma {:induction false} EqualText(a: Json, b: Json)
    requires WellFormed(a) && WellFormed(b) && Meaning(a) == Meaning(b)
    ensures Stable(a) == Stable(b)
    decreases a
  {
    match a {
      case Arr(items) =>
        ItemsEqualText(items, b.items);
      case Obj(members) =>
        forall k
          ensures k in Keys(members) <==> k in Keys(b.members)
        {
          MeaningAt(members, k);
          MeaningAt(b.members, k);
        }
        SortedKeysAgree(members, b.members);
        SortKeeps(Keys(members));
        MembersEqualText(members, b.members, Sort(Keys(members)));
      case _ =>
    }
  }

  lemma {:induction false} ItemsEqualText(a: seq<Json>, b: seq<Json>)
    requires forall i :: 0 <= i < |a| ==> WellFormed(a[i])
    requires forall i :: 0 <= i < |b| ==> WellFormed(b[i])
    requires Meanings(a) == Meanings(b)
    ensures ItemsText(a) == ItemsText(b)
    decreases a
  {
    hide Meaning, WellFormed;
    assert |a| == |Meanings(a)| == |b|;
    if a != [] {
      assert Meanings(a)[0] == Meanings(b)[0];
      EqualText(a[0], b[0]);
      assert Meanings(a)[1..] == Meanings(a[1..]) && Meanings(b)[1..] == Meanings(b[1..]);
      ItemsEqualText(a[1..], b[1..]);
    }
  }

  lemma {:induction false} MembersEqualText(a: seq<(string, Json)>, b: seq<(string, Json)>, keys: seq<string>)
    requires WellFormed(Obj(a)) && WellFormed(Obj(b)) && MeaningOfMembers(a) == MeaningOfMembers(b)
    requires forall i :: 0 <= i < |keys| ==> keys[i] in Keys(a) && keys[i] in Keys(b)
    ensures MembersText(a, keys) == MembersText(b, keys)
    decreases a, |keys|
  {
    hide MeaningOfMembers, Meaning;
    if keys != [] {
      MeaningAt(a, keys[0]);
      MeaningAt(b, keys[0]);
      EqualText(Member(a, keys[0]), Member(b, keys[0]));
      MembersEqualText(a, b, keys[1..]);
    }
  }

  // --- Injective: equal text means equal values ---

  /** What may follow a value in canonical text. */
  ghost predicate Delimits(rest: string) {
    rest == "" || rest[0] == ',' || rest[0] == ']' || rest[0] == '}'
  }

  lemma HexDigits(m: nat, n: nat)
    requires m < 16 && n < 16 && HexDigit(m) == HexDigit(n)
    ensures m == n
  {
  }

  lemma EscapePrefix(c: char, d: char, x: string, y: string)
    requires Escape(c) + x == Escape(d) + y
    ensures c == d && x == y
  {
    var s, t := Escape(c) + x, Escape(d) + y;
    assert s[0] == Escape(c)[0] && t[0] == Escape(d)[0];
    if |Escape(c)| > 1 {
      assert |Escape(d)| > 1;
      assert s[1] == Escape(c)[1] && t[1] == Escape(d)[1];
      if |Escape(c)| == 6 {
        assert |Escape(d)| == 6;
        assert s[4] == Escape(c)[4] && t[4] == Escape(d)[4] && s[5] == Escape(c)[5] && t[5] == Escape(d)[5];
        HexDigits(c as int / 16, d as int / 16);
        HexDigits(c as int % 16, d as int % 16);
      }
    }
    assert c == d;
    assert x == s[|Escape(c)|..] && y == t[|Escape(d)|..];
  }

  lemma EscapeNotQuote(c: char, x: string)
    ensures Escape(c) + x != "" && (Escape(c) + x)[0] != '"'
  {
  }

  lemma {:induction false} EscapedPrefix(s: string, t: string, x: string, y: string)
    requires EscapeAll(s) + "\"" + x == EscapeAll(t) + "\"" + y
    ensures s == t && x == y
  {
    hide Escape;
    if s == "" || t == "" {
      var u := if s == "" then t else s;
      if u != "" {
        var rest := EscapeAll(u[1..]) + "\"" + if s == "" then y else x;
        assert EscapeAll("") + "\"" + (if s == "" then x else y) == "\"" + if s == "" then x else y;
        assert EscapeAll(u) + "\"" + (if s == "" then y else x) == Escape(u[0]) + rest;
        EscapeNotQuote(u[0], rest);
      } else {
        assert x == (EscapeAll(s) + "\"" + x)[1..] && y == (EscapeAll(t) + "\"" + y)[1..];
      }
    } else {
      var sx, ty := EscapeAll(s[1..]) + "\"" + x, EscapeAll(t[1..]) + "\"" + y;
      assert EscapeAll(s) + "\"" + x == Escape(s[0]) + sx;
      assert EscapeAll(t) + "\"" + y == Escape(t[0]) + ty;
      EscapePrefix(s[0], t[0], sx, ty);
      EscapedPrefix(s[1..], t[1..], x, y);
      assert s == [s[0]] + s[1..] && t == [t[0]] + t[1..];
    }
  }

  lemma QuotePrefix(s: string, t: string, x: string, y: string)
    requires Quote(s) + x == Quote(t) + y
    ensures s == t && x == y
  {
    assert (Quote(s) + x)[1..] == EscapeAll(s) + "\"" + x;
    assert (Quote(t) + y)[1..] == EscapeAll(t) + "\"" + y;
    EscapedPrefix(s, t, x, y);
  }

  /** The first character tells the kind of value. */
  function Kind(c: char): int {
    if c == 'n' then 0 else if c == 't' || c == 'f' then 1 else if NumberChar(c) then 2
    else if c == '"' then 3 else if c == '[' then 4 else if c == '{' then 5 else 6
  }

  function KindOf(j: Json): int {
    match j
    case Null => 0 case Bool(_) => 1 case Num(_) => 2 case Str(_) => 3 case Arr(_) => 4 case Obj(_) => 5
  }

  lemma FirstChar(j: Json)
    requires WellFormed(j)
    ensures Stable(j) != "" && Kind(Stable(j)[0]) == KindOf(j)
  {
    hide ItemsText, MembersText, EscapeAll, Sort;
  }

  lemma TailOf(open: char, body: string, close: string, rest: string)
    ensures ([open] + body + close + rest)[1..] == body + (close + rest)
  {
    assert [open] + body + close + rest == [open] + (body + (close + rest));
  }

  lemma LiteralRest(a: string, b: string, x: string, y: string)
    requires a + x == b + y && |a| == |b|
    ensures a == b && x == y
  {
    assert a == (a + x)[..|a|] && b == (b + y)[..|b|];
    assert x == (a + x)[|a|..] && y == (b + y)[|b|..];
  }

  lemma {:induction false} TextPrefix(a: Json, b: Json, x: string, y: string)
    requires WellFormed(a) && WellFormed(b) && Delimits(x) && Delimits(y)
    requires Stable(a) + x == Stable(b) + y
    ensures Meaning(a) == Meaning(b) && x == y
    decreases a
  {
    hide ItemsText, MembersText, Quote, Sort, MeaningOfMembers, Meanings, WellFormed;
    FirstChar(a);
    FirstChar(b);
    assert (Stable(a) + x)[0] == Stable(a)[0] && (Stable(b) + y)[0] == Stable(b)[0];
    match a {
      case Null => LiteralRest("null", "null", x, y);
      case Bool(flag) => BoolPrefix(flag, b.flag, x, y);
      case Num(number) => NumberPrefix(number, b.number, x, y);
      case Str(text) => QuotePrefix(text, b.text, x, y);
      case Arr(items) =>
        ArrayParts(items, b.items);
        TailOf('[', ItemsText(items), "]", x);
        TailOf('[', ItemsText(b.items), "]", y);
        ItemsPrefix(items, b.items, x, y);
      case Obj(members) =>
        ObjectParts(members, b.members);
        var ka, kb := Sort(Keys(members)), Sort(Keys(b.members));
        TailOf('{', MembersText(members, ka), "}", x);
        TailOf('{', MembersText(b.members, kb), "}", y);
        MembersPrefix(members, b.members, ka, kb, x, y);
        assert forall k :: k in Keys(members) <==> k in ka;
        assert forall k :: k in Keys(b.members) <==> k in kb;
        SameMembers(members, b.members);
    }
  }

  lemma ArrayParts(a: seq<Json>, b: seq<Json>)
    requires WellFormed(Arr(a)) && WellFormed(Arr(b))
    ensures forall i :: 0 <= i < |a| ==> WellFormed(a[i])
    ensures forall i :: 0 <= i < |b| ==> WellFormed(b[i])
    ensures Stable(Arr(a)) == "[" + ItemsText(a) + "]" && Stable(Arr(b)) == "[" + ItemsText(b) + "]"
  {
  }

  lemma ObjectParts(a: seq<(string, Json)>, b: seq<(string, Json)>)
    requires WellFormed(Obj(a)) && WellFormed(Obj(b))
    ensures Distinct(a) && Distinct(b)
    ensures forall i :: 0 <= i < |a| ==> WellFormed(a[i].1)
    ensures forall i :: 0 <= i < |b| ==> WellFormed(b[i].1)
    ensures forall i :: 0 <= i < |Sort(Keys(a))| ==> Sort(Keys(a))[i] in Keys(a)
    ensures forall i :: 0 <= i < |Sort(Keys(b))| ==> Sort(Keys(b))[i] in Keys(b)
    ensures Stable(Obj(a)) == "{" + MembersText(a, Sort(Keys(a))) + "}"
      && Stable(Obj(b)) == "{" + MembersText(b, Sort(Keys(b))) + "}"
    ensures forall k :: k in Keys(a) <==> k in Sort(Keys(a))
    ensures forall k :: k in Keys(b) <==> k in Sort(Keys(b))
  {
    SortKeeps(Keys(a));
    SortKeeps(Keys(b));
  }

  lemma SameMembers(a: seq<(string, Json)>, b: seq<(string, Json)>)
    requires Distinct(a) && Distinct(b) && (forall k :: k in Keys(a) <==> k in Keys(b))
    requires forall k :: k in Keys(a) ==> k in Keys(b) && Meaning(Member(a, k)) == Meaning(Member(b, k))
    ensures MeaningOfMembers(a) == MeaningOfMembers(b)
  {
    hide Meaning, MeaningOfMembers;
    forall k
      ensures k in MeaningOfMembers(a) <==> k in MeaningOfMembers(b)
      ensures k in MeaningOfMembers(a) ==> k in MeaningOfMembers(b) && MeaningOfMembers(a)[k] == MeaningOfMembers(b)[k]
    {
      MeaningAt(a, k);
      MeaningAt(b, k);
    }
  }

  lemma BoolPrefix(f: bool, g: bool, x: string, y: string)
    requires (if f then "true" else "false") + x == (if g then "true" else "false") + y
    ensures f == g && x == y
  {
    var s := (if f then "true" else "false") + x;
    assert s[0] == if f then 't' else 'f';
    LiteralRest(if f then "true" else "false", if g then "true" else "false", x, y);
  }

  lemma NumberPrefix(m: NumberText, n: NumberText, x: string, y: string)
    requires m + x == n + y && Delimits(x) && Delimits(y)
    ensures m == n && x == y
  {
    SpanOf(NumberChar, m, x);
    SpanOf(NumberChar, n, y);
  }

  lemma ItemsCons(a: seq<Json>, x: string) returns (tail: string)
    requires a != [] && forall i :: 0 <= i < |a| ==> WellFormed(a[i])
    ensures tail == (if |a| == 1 then "" else ",") + (ItemsText(a[1..]) + ("]" + x))
    ensures ItemsText(a) + ("]" + x) == Stable(a[0]) + tail
    ensures Delimits(tail) && tail != "" && tail[0] == if |a| == 1 then ']' else ','
  {
    hide Stable, WellFormed;
    tail := (if |a| == 1 then "" else ",") + (ItemsText(a[1..]) + ("]" + x));
    if |a| == 1 {
      assert a[1..] == [];
    }
  }

  lemma FirstsDiffer(s: string, t: string, u: string)
    requires t != "" && u != "" && t[0] != u[0]
    ensures "" + (t + s) != u
  {
    assert ("" + (t + s))[0] == t[0];
  }

  lemma NotEmptyItems(a: seq<Json>, x: string, y: string)
    requires a != [] && forall i :: 0 <= i < |a| ==> WellFormed(a[i])
    ensures "" + ("]" + x) != ItemsText(a) + ("]" + y)
  {
    hide Stable, ItemsText, WellFormed;
    var tail := ItemsCons(a, y);
    FirstChar(a[0]);
    var u := Stable(a[0]) + tail;
    assert u[0] == Stable(a[0])[0] && u[0] != ']';
    FirstsDiffer(x, "]", u);
  }

  lemma {:induction false} ItemsPrefix(a: seq<Json>, b: seq<Json>, x: string, y: string)
    requires forall i :: 0 <= i < |a| ==> WellFormed(a[i])
    requires forall i :: 0 <= i < |b| ==> WellFormed(b[i])
    requires ItemsText(a) + ("]" + x) == ItemsText(b) + ("]" + y)
    ensures Meanings(a) == Meanings(b) && x == y
    decreases a
  {
    hide Stable, Meaning, WellFormed, Quote;
    if a == [] && b == [] {
      assert "" + ("]" + x) == "]" + x && "" + ("]" + y) == "]" + y;
      LiteralRest("]", "]", x, y);
    } else if a == [] {
      NotEmptyItems(b, x, y);
    } else if b == [] {
      NotEmptyItems(a, y, x);
    } else {
      var ta := ItemsCons(a, x);
      var tb := ItemsCons(b, y);
      TextPrefix(a[0], b[0], ta, tb);
      LiteralRest(if |a| == 1 then "" else ",", if |b| == 1 then ""
        else ",", ItemsText(a[1..]) + ("]" + x), ItemsText(b[1..]) + ("]" + y));
      ItemsPrefix(a[1..], b[1..], x, y);
      assert Meanings(a) == [Meaning(a[0])] + Meanings(a[1..]);
      assert Meanings(b) == [Meaning(b[0])] + Meanings(b[1..]);
    }
  }

  lemma MembersCons(a: seq<(string, Json)>, keys: seq<string>, x: string) returns (tail: string)
    requires WellFormed(Obj(a)) && keys != [] && forall i :: 0 <= i < |keys| ==> keys[i] in Keys(a)
    ensures tail == (if |keys| == 1 then "" else ",") + (MembersText(a, keys[1..]) + ("}" + x))
    ensures MembersText(a, keys) + ("}" + x) == Quote(keys[0]) + ([':'] + (Stable(Member(a, keys[0])) + tail))
    ensures Delimits(tail) && tail != "" && tail[0] == if |keys| == 1 then '}' else ','
  {
    hide Stable, Quote, Member;
    var sep, rest := if |keys| == 1 then "" else ",", MembersText(a, keys[1..]);
    tail := sep + (rest + ("}" + x));
    assert |keys| == 1 ==> rest == "";
    hide MembersText;
    MembersStep(a, keys);
    MemberRegroup(Quote(keys[0]), Stable(Member(a, keys[0])), sep, rest, "}" + x);
  }

  lemma MembersStep(a: seq<(string, Json)>, keys: seq<string>)
    requires WellFormed(Obj(a)) && keys != [] && forall i :: 0 <= i < |keys| ==> keys[i] in Keys(a)
    ensures MembersText(a, keys) == Quote(keys[0]) + ":" + Stable(Member(a, keys[0]))
      + (if |keys| == 1 then "" else ",") + MembersText(a, keys[1..])
  {
    hide Stable, Quote, Member;
  }

  lemma MemberRegroup(q: string, s: string, sep: string, rest: string, x: string)
    ensures q + ":" + s + sep + rest + x == q + ([':'] + (s + (sep + (rest + x))))
  {
    assert ":" == [':'];
    LineBreaks.Associate(q + ":" + s + sep, rest, x);
    LineBreaks.Associate(q + ":" + s, sep, rest + x);
    LineBreaks.Associate(q + ":", s, sep + (rest + x));
    LineBreaks.Associate(q, ":", s + (sep + (rest + x)));
  }

  lemma NotEmptyMembers(a: seq<(string, Json)>, keys: seq<string>, x: string, y: string)
    requires WellFormed(Obj(a)) && keys != [] && forall i :: 0 <= i < |keys| ==> keys[i] in Keys(a)
    ensures "" + ("}" + x) != MembersText(a, keys) + ("}" + y)
  {
    hide Stable, MembersText;
    var tail := MembersCons(a, keys, y);
    QuoteFirst(keys[0]);
    hide Quote;
    assert ("" + ("}" + x))[0] == '}';
    assert (Quote(keys[0]) + ([':'] + (Stable(Member(a, keys[0])) + tail)))[0] == Quote(keys[0])[0];
  }

  lemma {:induction false} MembersPrefix(a: seq<(string, Json)>, b: seq<(string, Json)>, ka: seq<string>,
      kb: seq<string>, x: string, y: string)
    requires WellFormed(Obj(a)) && WellFormed(Obj(b))
    requires (forall i :: 0 <= i < |ka| ==> ka[i] in Keys(a)) && (forall i :: 0 <= i < |kb| ==> kb[i] in Keys(b))
    requires MembersText(a, ka) + ("}" + x) == MembersText(b, kb) + ("}" + y)
    ensures ka == kb && x == y
    ensures forall k :: k in ka ==> k in Keys(a) && k in Keys(b) && Meaning(Member(a, k)) == Meaning(Member(b, k))
    decreases a, |ka|
  {
    hide Stable, Meaning, Quote, Member;
    if ka == [] && kb == [] {
      assert "" + ("}" + x) == "}" + x && "" + ("}" + y) == "}" + y;
      LiteralRest("}", "}", x, y);
    } else if ka == [] {
      NotEmptyMembers(b, kb, x, y);
    } else if kb == [] {
      NotEmptyMembers(a, ka, y, x);
    } else {
      var ta := MembersCons(a, ka, x);
      var tb := MembersCons(b, kb, y);
      var va, vb := Stable(Member(a, ka[0])) + ta, Stable(Member(b, kb[0])) + tb;
      QuotePrefix(ka[0], kb[0], [':'] + va, [':'] + vb);
      LiteralRest([':'], [':'], va, vb);
      TextPrefix(Member(a, ka[0]), Member(b, kb[0]), ta, tb);
      LiteralRest(if |ka| == 1 then "" else ",", if |kb| == 1 then "" else ",",
                  MembersText(a, ka[1..]) + ("}" + x), MembersText(b, kb[1..]) + ("}" + y));
      MembersPrefix(a, b, ka[1..], kb[1..], x, y);
      assert ka == [ka[0]] + ka[1..] && kb == [kb[0]] + kb[1..];
    }
  }

  lemma QuoteFirst(s: string)
    ensures Quote(s) != "" && Quote(s)[0] == '"'
  {
  }

  /** Canonical text decides equality up to object key order. */
  lemma StableDecidesEquality(a: Json, b: Json)
    requires WellFormed(a) && WellFormed(b)
    ensures Stable(a) == Stable(b) <==> Meaning(a) == Meaning(b)
  {
    hide Stable, Meaning, WellFormed;
    if Meaning(a) == Meaning(b) {
      EqualText(a, b);
    }
    if Stable(a) == Stable(b) {
      assert Stable(a) + "" == Stable(b) + "";
      TextPrefix(a, b, "", "");
    }
  }

  /** What the body hash is taken of: the scope, a line break, the canonical text. */
  function HashInput(scope: string, body: Json): string
    requires WellFormed(body)
  {
    scope + "\n" + Stable(body)
  }

  // --- Canonical text is one line ---

  lemma {:induction false} EscapedOneLine(s: string)
    ensures LineBreaks.OneLine(EscapeAll(s))
  {
    if s != "" {
      EscapedOneLine(s[1..]);
      assert LineBreaks.OneLine(Escape(s[0]));
      hide Escape, EscapeAll, LineBreaks.OneLine;
      EscapeAllStep(s);
      LineBreaks.OneLineJoin(Escape(s[0]), EscapeAll(s[1..]));
    }
  }

  lemma EscapeAllStep(s: string)
    requires s != ""
    ensures EscapeAll(s) == Escape(s[0]) + EscapeAll(s[1..])
  {
  }

  lemma Bracketed(open: string, text: string, close: string)
    requires LineBreaks.OneLine(open) && LineBreaks.OneLine(text) && LineBreaks.OneLine(close)
    ensures LineBreaks.OneLine(open + text + close)
  {
    LineBreaks.OneLineJoin(open, text);
    LineBreaks.OneLineJoin(open + text, close);
  }

  lemma QuoteOneLine(s: string)
    ensures LineBreaks.OneLine(Quote(s))
  {
    EscapedOneLine(s);
    hide EscapeAll;
    Bracketed("\"", EscapeAll(s), "\"");
  }

  lemma {:induction false} ItemsOneLine(items: seq<Json>)
    requires forall i :: 0 <= i < |items| ==> WellFormed(items[i])
    ensures LineBreaks.OneLine(ItemsText(items))
    decreases items
  {
    assert LineBreaks.OneLine("") && LineBreaks.OneLine(",");
    hide LineBreaks.OneLine, Stable, WellFormed;
    if items != [] {
      StableOneLine(items[0]);
      ItemsOneLine(items[1..]);
      Bracketed(Stable(items[0]), if |items| == 1 then "" else ",", ItemsText(items[1..]));
    }
  }

  lemma {:induction false} MembersOneLine(members: seq<(string, Json)>, keys: seq<string>)
    requires forall i :: 0 <= i < |members| ==> WellFormed(members[i].1)
    requires forall i :: 0 <= i < |keys| ==> keys[i] in Keys(members)
    ensures LineBreaks.OneLine(MembersText(members, keys))
    decreases members, |keys|
  {
    assert LineBreaks.OneLine("") && LineBreaks.OneLine(",") && LineBreaks.OneLine(":");
    hide LineBreaks.OneLine, Stable, WellFormed, Quote;
    if keys != [] {
      var j := Member(members, keys[0]);
      QuoteOneLine(keys[0]);
      StableOneLine(j);
      MembersOneLine(members, keys[1..]);
      var front := Quote(keys[0]) + ":" + Stable(j);
      Bracketed(Quote(keys[0]), ":", Stable(j));
      Bracketed(front, if |keys| == 1 then "" else ",", MembersText(members, keys[1..]));
    }
  }

  lemma {:induction false} StableOneLine(j: Json)
    requires WellFormed(j)
    ensures LineBreaks.OneLine(Stable(j))
    decreases j
  {
    match j {
      case Null =>
      case Bool(_) =>
      case Num(_) =>
      case Str(text) => QuoteOneLine(text);
      case Arr(items) =>
        ItemsOneLine(items);
        Bracketed("[", ItemsText(items), "]");
      case Obj(members) =>
        SortKeeps(Keys(members));
        MembersOneLine(members, Sort(Keys(members)));
        Bracketed("{", MembersText(members, Sort(Keys(members))), "}");
    }
  }

  /** The last break of the hashed text ends the scope, whatever breaks the scope contains. */
  lemma HashInputDecides(s: string, a: Json, t: string, b: Json)
    requires WellFormed(a) && WellFormed(b)
    ensures HashInput(s, a) == HashInput(t, b) <==> s == t && Meaning(a) == Meaning(b)
  {
    hide Stable, Meaning, WellFormed, LineBreaks.OneLine;
    StableOneLine(a);
    StableOneLine(b);
    StableDecidesEquality(a, b);
    if HashInput(s, a) == HashInput(t, b) {
      ScopeEnds(s, Stable(a), t, Stable(b));
    }
  }

  lemma ScopeEnds(s: string, x: string, t: string, y: string)
    requires LineBreaks.OneLine(x) && LineBreaks.OneLine(y) && s + "\n" + x == t + "\n" + y
    ensures s == t && x == y
  {
    hide LineBreaks.OneLine;
    LineBreaks.Associate(s, "\n", x);
    LineBreaks.Associate(t, "\n", y);
    LineBreaks.LastBreakSplits(s, x, t, y);
  }
}
