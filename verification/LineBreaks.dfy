/** Values joined by separators of which each is a line break and the rest of a line. When the
    text has another reading, and when it has not. */
module LineBreaks {

  ghost predicate OneLine(s: string) {
    forall c :: c in s ==> c != '\n'
  }

  lemma OneLineJoin(a: string, b: string)
    requires OneLine(a) && OneLine(b)
    ensures OneLine(a + b)
  {
  }

  /** A line break, and no other. */
  predicate Separator(s: string) {
    s != "" && s[0] == '\n' && forall k :: 1 <= k < |s| ==> s[k] != '\n'
  }

  ghost predicate Separators(ss: seq<string>) {
    forall i :: 0 <= i < |ss| ==> Separator(ss[i])
  }

  /** The values with the separators between them. */
  function Joined(ss: seq<string>, vs: seq<string>): string
    requires |vs| == |ss| + 1
  {
    if ss == [] then vs[0] else vs[0] + (ss[0] + Joined(ss[1..], vs[1..]))
  }

  predicate OccursAt(s: string, v: string, n: nat) {
    n + |s| <= |v| && v[n..n + |s|] == s
  }

  ghost predicate Occurs(s: string, v: string) {
    exists n: nat :: OccursAt(s, v, n)
  }

  /** The separator occurs in the value before it or behind it. */
  ghost predicate AmbiguousAt(ss: seq<string>, vs: seq<string>, i: nat) {
    i < |ss| && i + 1 < |vs| && (Occurs(ss[i], vs[i]) || Occurs(ss[i], vs[i + 1]))
  }

  ghost predicate Ambiguous(ss: seq<string>, vs: seq<string>) {
    exists i: nat :: AmbiguousAt(ss, vs, i)
  }

  lemma Associate(a: string, b: string, c: string)
    ensures a + b + c == a + (b + c)
  {
  }

  lemma At(a: string, s: string, b: string)
    ensures OccursAt(s, a + (s + b), |a|)
  {
    var t := a + (s + b);
    assert forall k :: 0 <= k < |s| ==> t[|a| + k] == s[k];
  }

  lemma BreakBeyond(s: string, rest: string, n: nat)
    requires Separator(s) && 1 <= n < |s + rest| && (s + rest)[n] == '\n'
    ensures |s| <= n
  {
  }

  /** A text without breaks behind the last break determines where that break is. */
  lemma LastBreakSplits(a: string, x: string, b: string, y: string)
    requires OneLine(x) && OneLine(y) && a + ("\n" + x) == b + ("\n" + y)
    ensures a == b && x == y
  {
    NoLaterBreak(a, x, b, y);
    NoLaterBreak(b, y, a, x);
    SameLength(a, "\n" + x, b, "\n" + y);
    SameLength("\n", x, "\n", y);
  }

  lemma NoLaterBreak(a: string, x: string, b: string, y: string)
    requires OneLine(x) && a + ("\n" + x) == b + ("\n" + y)
    ensures |b| <= |a|
  {
    var all := a + ("\n" + x);
    assert all[|b|] == '\n';
    assert forall k :: 0 <= k < |x| ==> all[|a| + 1 + k] == x[k] && x[k] in x;
    assert |b| < |all|;
  }

  /** Separators do not overlap: one that begins inside a value ends inside it. */
  lemma EndsInside(a: string, s: string, rest: string, b: string, t: string, rest': string)
    requires Separator(s) && Separator(t) && a + (s + rest) == b + (t + rest') && |b| < |a|
    ensures OccursAt(t, a, |b|)
  {
    var all := a + (s + rest);
    assert all[|a|] == s[0] == '\n';
    assert forall k :: 0 <= k < |t| ==> all[|b| + k] == t[k];
    assert all == b + (t + rest') && all[|b|..] == t + rest';
    assert (t + rest')[|a| - |b|] == '\n';
    BreakBeyond(t, rest', |a| - |b|);
    assert forall k :: 0 <= k < |a| ==> all[k] == a[k];
  }

  /** What follows two separators that begin at different places. */
  lemma Follows(s: string, rest: string, b: string, t: string, rest': string) returns (gap: string)
    requires Separator(s) && Separator(t) && b != "" && s + rest == b + (t + rest')
    ensures b == s + gap && rest == gap + (t + rest')
  {
    var all := s + rest;
    assert all[|b|] == t[0] == '\n';
    assert forall k :: 0 <= k < |s| ==> all[k] == s[k];
    gap := b[|s|..];
    assert all[..|b|] == b;
    assert b == s + gap by {
      assert b[..|s|] == all[..|s|] == s;
    }
    assert all[|s|..] == rest;
    Associate(s, gap, t + rest');
    assert (s + (gap + (t + rest')))[|s|..] == gap + (t + rest');
  }

  lemma SameLength(a: string, rest: string, b: string, rest': string)
    requires a + rest == b + rest' && |a| == |b|
    ensures a == b && rest == rest'
  {
    assert (a + rest)[..|a|] == a && (b + rest')[..|b|] == b;
    assert (a + rest)[|a|..] == rest && (b + rest')[|b|..] == rest';
  }

  lemma CutFront(a: string, rest: string, b: string, rest': string) returns (gap: string)
    requires a + rest == b + rest' && |a| <= |b|
    ensures b == a + gap && rest == gap + rest'
  {
    gap := b[|a|..];
    assert b[..|a|] == (b + rest')[..|a|] == a;
    Associate(a, gap, rest');
    SameLength(a, rest, a, gap + rest');
  }

  /** A reading that has fallen behind by a separator finds it, or a later one, in a value. */
  lemma {:induction false} Behind(ss: seq<string>, vs: seq<string>, vs': seq<string>, gap: string, s: string)
      returns (j: nat)
    requires |vs| == |vs'| == |ss| + 1 && Separators(ss) && Separator(s)
    requires Joined(ss, vs) == gap + (s + Joined(ss, vs'))
    ensures j < |vs| && Occurs(if j == 0 then s else ss[j - 1], vs[j])
    decreases |ss|
  {
    hide Separator;
    if ss == [] {
      At(gap, s, vs'[0]);
      j := 0;
    } else {
      var rest, rest' := Joined(ss[1..], vs[1..]), Joined(ss[1..], vs'[1..]);
      hide Joined;
      assert Separator(ss[0]);
      if |gap| < |vs[0]| {
        EndsInside(vs[0], ss[0], rest, gap, s, vs'[0] + (ss[0] + rest'));
        j := 0;
      } else {
        var more := CutFront(vs[0], ss[0] + rest, gap, s + (vs'[0] + (ss[0] + rest')));
        var before := more + (s + vs'[0]);
        Associate(s, vs'[0], ss[0] + rest');
        Associate(more, s + vs'[0], ss[0] + rest');
        NotEmpty(more, s, vs'[0]);
        var next := Follows(ss[0], rest, before, ss[0], rest');
        assert Separators(ss[1..]);
        var k := Behind(ss[1..], vs[1..], vs'[1..], next, ss[0]);
        j := k + 1;
      }
    }
  }

  lemma NotEmpty(a: string, s: string, b: string)
    requires Separator(s)
    ensures a + (s + b) != ""
  {
    assert |a + (s + b)| > 0;
  }

  lemma Alone(vs: seq<string>, vs': seq<string>)
    requires |vs| == |vs'| == 1 && Joined([], vs) == Joined([], vs')
    ensures vs == vs'
  {
    assert vs[0] == vs'[0];
  }

  /** A second reading meets a separator in a value it stands beside. */
  lemma {:induction false} SecondReading(ss: seq<string>, vs: seq<string>, vs': seq<string>)
    requires |vs| == |vs'| == |ss| + 1 && Separators(ss) && vs != vs' && Joined(ss, vs) == Joined(ss, vs')
    ensures Ambiguous(ss, vs)
    decreases |ss|
  {
    hide Separator, Occurs;
    if ss == [] {
      Alone(vs, vs');
    } else {
      var rest, rest' := Joined(ss[1..], vs[1..]), Joined(ss[1..], vs'[1..]);
      assert Separator(ss[0]) && Separators(ss[1..]);
      if |vs[0]| == |vs'[0]| {
        SameLength(vs[0], ss[0] + rest, vs'[0], ss[0] + rest');
        SameLength(ss[0], rest, ss[0], rest');
        assert vs == [vs[0]] + vs[1..] && vs' == [vs'[0]] + vs'[1..];
        SecondReading(ss[1..], vs[1..], vs'[1..]);
        var i: nat :| AmbiguousAt(ss[1..], vs[1..], i);
        assert AmbiguousAt(ss, vs, i + 1);
      } else if |vs'[0]| < |vs[0]| {
        EndsInside(vs[0], ss[0], rest, vs'[0], ss[0], rest');
        OccursWhere(ss[0], vs[0], |vs'[0]|);
        assert AmbiguousAt(ss, vs, 0);
      } else {
        var more := CutFront(vs[0], ss[0] + rest, vs'[0], ss[0] + rest');
        var gap := Follows(ss[0], rest, more, ss[0], rest');
        var j := Behind(ss[1..], vs[1..], vs'[1..], gap, ss[0]);
        assert AmbiguousAt(ss, vs, j);
      }
    }
  }

  lemma OccursWhere(s: string, v: string, n: nat)
    requires OccursAt(s, v, n)
    ensures Occurs(s, v)
  {
  }

  /** Moving a separator from the value before its place to the one behind it, or back. */
  lemma {:induction false} Move(ss: seq<string>, vs: seq<string>, i: nat, a: string, b: string, c: string)
    requires |vs| == |ss| + 1 && i < |ss|
    ensures Joined(ss, vs[i := a + (ss[i] + b)][i + 1 := c]) == Joined(ss, vs[i := a][i + 1 := b + (ss[i] + c)])
    decreases i
  {
    var left, right := vs[i := a + (ss[i] + b)][i + 1 := c], vs[i := a][i + 1 := b + (ss[i] + c)];
    if i > 0 {
      assert left[1..] == vs[1..][i - 1 := a + (ss[1..][i - 1] + b)][i := c];
      assert right[1..] == vs[1..][i - 1 := a][i := b + (ss[1..][i - 1] + c)];
      Move(ss[1..], vs[1..], i - 1, a, b, c);
    } else {
      var s := ss[0];
      assert left[1..] == [c] + vs[2..] && right[1..] == [b + (s + c)] + vs[2..];
      var tail := Joined(ss[1..], left[1..])[|c|..];
      Heads(ss[1..], c, vs[2..]);
      Heads(ss[1..], b + (s + c), vs[2..]);
      Regroup(a, s, b, c, After(ss[1..], vs[2..]));
    }
  }

  function After(ss: seq<string>, vs: seq<string>): string
    requires |vs| == |ss|
  {
    if ss == [] then "" else ss[0] + Joined(ss[1..], vs)
  }

  lemma Heads(ss: seq<string>, v: string, vs: seq<string>)
    requires |vs| == |ss|
    ensures Joined(ss, [v] + vs) == v + After(ss, vs)
  {
    assert ([v] + vs)[1..] == vs;
    assert v + "" == v;
  }

  lemma Regroup(a: string, s: string, b: string, c: string, d: string)
    ensures (a + (s + b)) + (s + (c + d)) == a + (s + ((b + (s + c)) + d))
  {
    Associate(s, c, d);
    Associate(b, s + c, d);
    Associate(s, b, (s + c) + d);
    Associate(a, s + b, (s + c) + d);
  }

  lemma Split(s: string, v: string) returns (a: string, b: string)
    requires Occurs(s, v)
    ensures v == a + (s + b)
  {
    var n: nat :| OccursAt(s, v, n);
    a, b := v[..n], v[n + |s|..];
    assert v == v[..n] + (v[n..n + |s|] + v[n + |s|..]);
  }

  /** The text has another reading if and only if a separator occurs beside its place. */
  lemma AnotherReading(ss: seq<string>, vs: seq<string>)
    requires |vs| == |ss| + 1 && Separators(ss)
    ensures (exists vs': seq<string> :: |vs'| == |vs| && vs' != vs && Joined(ss, vs') == Joined(ss, vs)) <==>
      Ambiguous(ss, vs)
  {
    hide Joined, Occurs;
    if Ambiguous(ss, vs) {
      var vs' := Moved(ss, vs);
    }
    forall vs': seq<string> | |vs'| == |vs| && vs' != vs && Joined(ss, vs') == Joined(ss, vs)
      ensures Ambiguous(ss, vs)
    {
      SecondReading(ss, vs, vs');
    }
  }

  /** The other reading. */
  lemma Moved(ss: seq<string>, vs: seq<string>) returns (vs': seq<string>)
    requires |vs| == |ss| + 1 && Separators(ss) && Ambiguous(ss, vs)
    ensures |vs'| == |vs| && vs' != vs && Joined(ss, vs') == Joined(ss, vs)
  {
    hide Joined, Occurs;
    var i: nat :| AmbiguousAt(ss, vs, i);
    assert Separator(ss[i]);
    var v, w := vs[i], vs[i + 1];
    if Occurs(ss[i], v) {
      var a, b := Split(ss[i], v);
      Move(ss, vs, i, a, b, w);
      assert vs == vs[i := a + (ss[i] + b)][i + 1 := w];
      vs' := vs[i := a][i + 1 := b + (ss[i] + w)];
      assert vs'[i] == a && |a| < |v|;
    } else {
      var b, c := Split(ss[i], w);
      Move(ss, vs, i, v, b, c);
      assert vs == vs[i := v][i + 1 := b + (ss[i] + c)];
      vs' := vs[i := v + (ss[i] + b)][i + 1 := c];
      assert vs'[i] == v + (ss[i] + b) && |vs'[i]| > |v|;
    }
  }
}
