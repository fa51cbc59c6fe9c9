/** Matching a host name's labels against a pattern of labels, `*` and `**`. */
module Glob {

  function MatchParts(pattern: seq<string>, candidate: seq<string>): bool
    decreases |pattern|
  {
    if pattern == [] then candidate == []
    else
      var tail := pattern[1..];
      if pattern[0] == "**" then
        if tail == [] then candidate != []
        else (exists i :: 0 <= i < |candidate| && MatchParts(tail, candidate[i..])) || MatchParts(tail, candidate)
      else
        candidate != [] && (pattern[0] == "*" || pattern[0] == candidate[0]) && MatchParts(tail, candidate[1..])
  }

  /** What the k-th part of a pattern may take: `*` any one label, `**` any number of labels but
      at least one when it comes last, anything else itself. */
  ghost predicate Takes(pattern: seq<string>, k: nat, labels: seq<string>)
    requires k < |pattern|
  {
    if pattern[k] == "**" then k == |pattern| - 1 ==> labels != []
    else |labels| == 1 && (pattern[k] == "*" || labels[0] == pattern[k])
  }

  ghost predicate Piece(pattern: seq<string>, candidate: seq<string>, at: seq<nat>, k: nat)
    requires k < |pattern| && |at| == |pattern| + 1
  {
    at[k] <= at[k + 1] <= |candidate| && Takes(pattern, k, candidate[at[k]..at[k + 1]])
  }

  /** The labels, cut at the given places, are taken one piece per part. */
  ghost predicate CutAt(pattern: seq<string>, candidate: seq<string>, at: seq<nat>) {
    |at| == |pattern| + 1 && at[0] == 0 && at[|pattern|] == |candidate| &&
    forall k :: 0 <= k < |pattern| ==> Piece(pattern, candidate, at, k)
  }

  ghost predicate Means(pattern: seq<string>, candidate: seq<string>) {
    exists at :: CutAt(pattern, candidate, at)
  }

  /** A pattern with parts never matches no labels, so the empty suffix need not be tried. */
  lemma {:induction false} NeverEmpty(pattern: seq<string>)
    requires pattern != []
    ensures !MatchParts(pattern, [])
    decreases |pattern|
  {
    if |pattern| > 1 {
      NeverEmpty(pattern[1..]);
    }
  }

  lemma TailTakes(pattern: seq<string>, k: nat, labels: seq<string>)
    requires k + 1 < |pattern|
    ensures Takes(pattern[1..], k, labels) <==> Takes(pattern, k + 1, labels)
  {
  }

  /** A piece of the rest is the next piece of the whole, `n` labels further on. */
  lemma ShiftPiece(pattern: seq<string>, candidate: seq<string>, n: nat, rest: seq<nat>, at: seq<nat>, k: nat)
    requires k + 1 < |pattern| && |rest| == |pattern| && |at| == |pattern| + 1 && n <= |candidate|
    requires at[k + 1] == rest[k] + n && at[k + 2] == rest[k + 1] + n
    ensures Piece(pattern[1..], candidate[n..], rest, k) <==> Piece(pattern, candidate, at, k + 1)
  {
    hide Takes;
    if rest[k] <= rest[k + 1] <= |candidate[n..]| {
      assert candidate[n..][rest[k]..rest[k + 1]] == candidate[at[k + 1]..at[k + 2]];
      TailTakes(pattern, k, candidate[at[k + 1]..at[k + 2]]);
    }
  }

  /** A cut of the rest, shifted past the labels the first part takes. */
  lemma Prepend(pattern: seq<string>, candidate: seq<string>, n: nat, rest: seq<nat>)
    requires pattern != [] && n <= |candidate| && CutAt(pattern[1..], candidate[n..], rest)
      && Takes(pattern, 0, candidate[..n])
    ensures Means(pattern, candidate)
  {
    hide Takes;
    var at := [0] + seq(|rest|, i requires 0 <= i < |rest| => rest[i] + n);
    assert candidate[at[0]..at[1]] == candidate[..n];
    forall k | 0 <= k < |pattern|
      ensures Piece(pattern, candidate, at, k)
    {
      if k > 0 {
        assert Piece(pattern[1..], candidate[n..], rest, k - 1);
        ShiftPiece(pattern, candidate, n, rest, at, k - 1);
      }
    }
    assert CutAt(pattern, candidate, at);
  }

  lemma {:induction false} Increasing(pattern: seq<string>, candidate: seq<string>, at: seq<nat>, k: nat)
    requires CutAt(pattern, candidate, at) && 1 <= k <= |pattern|
    ensures at[1] <= at[k]
  {
    hide Takes;
    if k > 1 {
      Increasing(pattern, candidate, at, k - 1);
      assert Piece(pattern, candidate, at, k - 1);
    }
  }

  /** The cut without its first piece is a cut of the rest. */
  lemma Behead(pattern: seq<string>, candidate: seq<string>, at: seq<nat>)
    requires pattern != [] && CutAt(pattern, candidate, at)
    ensures at[1] <= |candidate| && Means(pattern[1..], candidate[at[1]..]) && Takes(pattern, 0, candidate[..at[1]])
  {
    hide Takes;
    var n := at[1];
    assert Piece(pattern, candidate, at, 0) && candidate[at[0]..n] == candidate[..n];
    forall k | 1 <= k <= |pattern|
      ensures n <= at[k]
    {
      Increasing(pattern, candidate, at, k);
    }
    var rest: seq<nat> := seq(|pattern|, i requires 0 <= i < |pattern| => if at[i + 1] >= n then at[i + 1] - n else 0);
    assert forall i :: 0 <= i < |pattern| ==> at[i + 1] >= n && rest[i] == at[i + 1] - n;
    forall k | 0 <= k < |pattern| - 1
      ensures Piece(pattern[1..], candidate[n..], rest, k)
    {
      assert Piece(pattern, candidate, at, k + 1);
      ShiftPiece(pattern, candidate, n, rest, at, k);
    }
    assert CutAt(pattern[1..], candidate[n..], rest);
  }

  lemma {:induction false} MatchedIsCut(pattern: seq<string>, candidate: seq<string>)
    requires MatchParts(pattern, candidate)
    ensures Means(pattern, candidate)
    decreases |pattern|
  {
    if pattern == [] {
      assert CutAt(pattern, candidate, [0]);
    } else {
      var tail := pattern[1..];
      var n: nat;
      if pattern[0] == "**" && tail == [] {
        n := |candidate|;
        assert MatchParts(tail, candidate[n..]);
      } else if pattern[0] == "**" {
        if i :| 0 <= i < |candidate| && MatchParts(tail, candidate[i..]) {
          n := i;
        } else {
          n := 0;
          assert candidate[0..] == candidate;
        }
      } else {
        n := 1;
      }
      MatchedIsCut(tail, candidate[n..]);
      var rest :| CutAt(tail, candidate[n..], rest);
      Prepend(pattern, candidate, n, rest);
    }
  }

  lemma {:induction false} CutIsMatched(pattern: seq<string>, candidate: seq<string>)
    requires Means(pattern, candidate)
    ensures MatchParts(pattern, candidate)
    decreases |pattern|
  {
    var at :| CutAt(pattern, candidate, at);
    if pattern != [] {
      Behead(pattern, candidate, at);
      var tail := pattern[1..];
      if tail != [] {
        NeverEmpty(tail);
      }
      CutIsMatched(tail, candidate[at[1]..]);
    }
  }

  /** Matching holds exactly when the labels can be cut as the grammar says. */
  lemma MatchMeans(pattern: seq<string>, candidate: seq<string>)
    ensures MatchParts(pattern, candidate) <==> Means(pattern, candidate)
  {
    if MatchParts(pattern, candidate) {
      MatchedIsCut(pattern, candidate);
    }
    if Means(pattern, candidate) {
      CutIsMatched(pattern, candidate);
    }
  }
}
