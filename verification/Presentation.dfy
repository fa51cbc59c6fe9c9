/** The text of a presentation: issuer token, disclosures and key-binding token between tildes. */
module Presentation {
  import opened Records
  import opened Text
  import Base64

  datatype Parsed = Parsed(sdJwt: string, disclosures: seq<string>, kbJwt: string)
  datatype Reason = MissingKbJwt | EmptySegment | ShapeInvalid

  predicate Base64UrlChar(c: char) {
    'A' <= c <= 'Z' || 'a' <= c <= 'z' || IsDigit(c) || c == '_' || c == '-'
  }

  predicate Base64UrlText(s: string) {
    s != "" && forall c :: c in s ==> Base64UrlChar(c)
  }

  function Split(s: string, sep: char): (r: seq<string>)
    ensures r != []
  {
    if s == "" then [""]
    else
      var rest := Split(s[1..], sep);
      if s[0] == sep then [""] + rest else [[s[0]] + rest[0]] + rest[1..]
  }

  function Join(segments: seq<string>, sep: char): string {
    if segments == [] then "" else if |segments| == 1 then segments[0]
      else segments[0] + [sep] + Join(segments[1..], sep)
  }

  predicate IsCompactJws(s: string) {
    var parts := Split(s, '.');
    |parts| == 3 && forall i :: 0 <= i < 3 ==> Base64UrlText(parts[i])
  }

  function ParsePresentation(s: string): Result<Parsed, Reason> {
    var segments := Split(s, '~');
    var n := |segments|;
    if n < 2 || segments[n - 1] == "" then Failure(MissingKbJwt)
    else if "" in segments then Failure(EmptySegment)
    else if !IsCompactJws(segments[0]) || !IsCompactJws(segments[n - 1]) then Failure(ShapeInvalid)
    else if exists i :: 1 <= i < n - 1 && !Base64UrlText(segments[i]) then Failure(ShapeInvalid)
    else Success(Parsed(segments[0], segments[1..n - 1], segments[n - 1]))
  }

  function Terminated(disclosures: seq<string>): string {
    if disclosures == [] then "" else disclosures[0] + "~" + Terminated(disclosures[1..])
  }

  /** What the key-binding token's `sd_hash` covers. */
  function SdHashInput(p: Parsed): string {
    p.sdJwt + "~" + Terminated(p.disclosures)
  }

  function Render(p: Parsed): string {
    SdHashInput(p) + p.kbJwt
  }

  ghost predicate WellShaped(p: Parsed) {
    IsCompactJws(p.sdJwt) && IsCompactJws(p.kbJwt) && forall i ::
      0 <= i < |p.disclosures| ==> Base64UrlText(p.disclosures[i])
  }

  ghost predicate Free(s: string, sep: char) {
    sep !in s
  }

  lemma {:induction false} SplitFree(s: string, sep: char)
    requires Free(s, sep)
    ensures Split(s, sep) == [s]
  {
    if s != "" {
      SplitFree(s[1..], sep);
      assert [s[0]] + s[1..] == s;
    }
  }

  lemma {:induction false} SplitCons(s: string, sep: char, rest: string)
    requires Free(s, sep)
    ensures Split(s + [sep] + rest, sep) == [s] + Split(rest, sep)
  {
    var text := s + [sep] + rest;
    if s == "" {
      assert text[1..] == rest;
    } else {
      assert text[1..] == s[1..] + [sep] + rest;
      SplitCons(s[1..], sep, rest);
      assert [s[0]] + s[1..] == s;
    }
  }

  lemma {:induction false} SplitPieces(s: string, sep: char)
    ensures forall i :: 0 <= i < |Split(s, sep)| ==> Free(Split(s, sep)[i], sep)
  {
    if s != "" {
      SplitPieces(s[1..], sep);
    }
  }

  lemma {:induction false} JoinSplit(s: string, sep: char)
    ensures Join(Split(s, sep), sep) == s
    ensures forall i :: 0 <= i < |Split(s, sep)| ==> Free(Split(s, sep)[i], sep)
  {
    SplitPieces(s, sep);
    hide Free;
    if s != "" {
      JoinSplit(s[1..], sep);
      var rest := Split(s[1..], sep);
      assert s == [s[0]] + s[1..];
      if s[0] == sep {
        assert Split(s, sep)[1..] == rest;
      } else {
        assert Split(s, sep)[1..] == rest[1..];
        if |rest| > 1 {
          assert [s[0]] + rest[0] + [sep] + Join(rest[1..], sep) == [s[0]] + (rest[0] + [sep] + Join(rest[1..], sep));
        }
      }
    }
  }

  lemma Base64UrlFree(s: string)
    requires Base64UrlText(s)
    ensures Free(s, '~') && s != ""
  {
  }

  /** A compact token is three base64url parts between dots, so it holds no tilde. */
  lemma CompactFree(s: string)
    requires IsCompactJws(s)
    ensures Free(s, '~') && s != ""
  {
    var parts := Split(s, '.');
    JoinSplit(s, '.');
    assert s == parts[0] + ['.'] + (parts[1] + ['.'] + parts[2]) by {
      assert parts[1..][1..] == [parts[2]];
      assert Join(parts[1..], '.') == parts[1] + ['.'] + parts[2];
    }
    hide Split, Join;
    Base64UrlFree(parts[0]);
    Base64UrlFree(parts[1]);
    Base64UrlFree(parts[2]);
  }

  lemma {:induction false} SplitTerminated(disclosures: seq<string>, last: string)
    requires Free(last, '~') && forall i :: 0 <= i < |disclosures| ==> Free(disclosures[i], '~')
    ensures Split(Terminated(disclosures) + last, '~') == disclosures + [last]
  {
    if disclosures == [] {
      SplitFree(last, '~');
      assert Terminated(disclosures) + last == last && disclosures + [last] == [last];
    } else {
      SplitTerminated(disclosures[1..], last);
      SplitCons(disclosures[0], '~', Terminated(disclosures[1..]) + last);
      hide Split;
      assert Terminated(disclosures) + last == disclosures[0] + ['~'] + (Terminated(disclosures[1..]) + last);
      assert disclosures + [last] == [disclosures[0]] + (disclosures[1..] + [last]);
    }
  }

  lemma RenderedSegments(p: Parsed)
    requires WellShaped(p)
    ensures Split(Render(p), '~') == [p.sdJwt] + p.disclosures + [p.kbJwt]
    ensures p.sdJwt != "" && p.kbJwt != "" && forall i :: 0 <= i < |p.disclosures| ==> p.disclosures[i] != ""
  {
    hide Split, IsCompactJws, Base64UrlText;
    CompactFree(p.sdJwt);
    CompactFree(p.kbJwt);
    forall i | 0 <= i < |p.disclosures|
      ensures Free(p.disclosures[i], '~') && p.disclosures[i] != ""
    {
      Base64UrlFree(p.disclosures[i]);
    }
    SplitTerminated(p.disclosures, p.kbJwt);
    SplitCons(p.sdJwt, '~', Terminated(p.disclosures) + p.kbJwt);
    assert Render(p) == p.sdJwt + ['~'] + (Terminated(p.disclosures) + p.kbJwt);
    assert [p.sdJwt] + p.disclosures + [p.kbJwt] == [p.sdJwt] + (p.disclosures + [p.kbJwt]);
  }

  /** A text parses to `p` exactly when `p` is well shaped and the text is its rendering. */
  lemma ParsesExactly(s: string, p: Parsed)
    ensures ParsePresentation(s) == Success(p) <==> WellShaped(p) && s == Render(p)
  {
    hide IsCompactJws, Base64UrlText, Split;
    if WellShaped(p) && s == Render(p) {
      RenderedSegments(p);
      var segments := Split(s, '~');
      assert segments[1..|segments| - 1] == p.disclosures;
      assert forall i :: 1 <= i < |segments| - 1 ==> segments[i] == p.disclosures[i - 1];
    }
    if ParsePresentation(s) == Success(p) {
      var segments := Split(s, '~');
      assert forall i :: 0 <= i < |p.disclosures| ==> p.disclosures[i] == segments[i + 1];
      JoinSplit(s, '~');
      JoinSegments(p);
      assert segments == [p.sdJwt] + p.disclosures + [p.kbJwt];
    }
  }

  lemma JoinSegments(p: Parsed)
    ensures Join([p.sdJwt] + p.disclosures + [p.kbJwt], '~') == Render(p)
  {
    JoinTail(p.disclosures, p.kbJwt);
    var segments := [p.sdJwt] + p.disclosures + [p.kbJwt];
    assert segments[1..] == p.disclosures + [p.kbJwt];
    assert Render(p) == p.sdJwt + ['~'] + (Terminated(p.disclosures) + p.kbJwt);
  }

  lemma {:induction false} JoinTail(disclosures: seq<string>, last: string)
    ensures Join(disclosures + [last], '~') == Terminated(disclosures) + last
  {
    if disclosures == [] {
      assert disclosures + [last] == [last] && Terminated(disclosures) + last == last;
    } else {
      JoinTail(disclosures[1..], last);
      assert (disclosures + [last])[1..] == disclosures[1..] + [last];
      assert Terminated(disclosures) + last == disclosures[0] + ['~'] + (Terminated(disclosures[1..]) + last);
    }
  }

  /** The hashed text determines the issuer token and the disclosures. */
  lemma SdHashInputInjective(p: Parsed, q: Parsed)
    requires WellShaped(p) && WellShaped(q) && SdHashInput(p) == SdHashInput(q)
    ensures p.sdJwt == q.sdJwt && p.disclosures == q.disclosures
  {
    hide WellShaped, ParsePresentation, SdHashInput, Split;
    var q' := q.(kbJwt := p.kbJwt);
    assert WellShaped(q') by { SwapKb(q, p.kbJwt, p); }
    RenderWith(p);
    RenderWith(q');
    SameInput(q, q');
    ParsesExactly(Render(p), p);
    ParsesExactly(Render(p), q');
  }

  lemma SwapKb(q: Parsed, kb: string, p: Parsed)
    requires WellShaped(q) && WellShaped(p) && kb == p.kbJwt
    ensures WellShaped(q.(kbJwt := kb))
  {
    hide IsCompactJws, Base64UrlText;
  }

  lemma RenderWith(p: Parsed)
    ensures Render(p) == SdHashInput(p) + p.kbJwt
  {
  }

  lemma SameInput(q: Parsed, q': Parsed)
    requires q.sdJwt == q'.sdJwt && q.disclosures == q'.disclosures
    ensures SdHashInput(q) == SdHashInput(q')
  {
  }

  // --- Refusals, from the text alone ---

  /** The URL-safe alphabet: base 64 without its two characters that are not. */
  lemma AlphabetMeans(c: char)
    ensures Base64UrlChar(c) <==> |Base64.SymbolValue(c)| == 1 && c != '+' && c != '/'
  {
  }

  /** A compact token is three encoded parts with dots between them. */
  lemma CompactMeans(s: string)
    ensures IsCompactJws(s) <==>
      exists a, b, c :: Base64UrlText(a) && Base64UrlText(b) && Base64UrlText(c) && s == a + "." + (b + "." + c)
  {
    hide Split, Base64UrlText;
    if IsCompactJws(s) {
      var parts := Split(s, '.');
      JoinSplit(s, '.');
      JoinThree(parts, '.');
      assert s == parts[0] + "." + (parts[1] + "." + parts[2]);
    }
    forall a, b, c | Base64UrlText(a) && Base64UrlText(b) && Base64UrlText(c) && s == a + "." + (b + "." + c)
      ensures IsCompactJws(s)
    {
      NoDots(a);
      NoDots(b);
      NoDots(c);
      SplitCons(b, '.', c);
      SplitCons(a, '.', b + "." + c);
      SplitFree(c, '.');
      assert Split(s, '.') == [a] + ([b] + [c]);
    }
  }

  lemma NoDots(s: string)
    requires Base64UrlText(s)
    ensures Free(s, '.')
  {
  }

  lemma JoinThree(parts: seq<string>, sep: char)
    requires |parts| == 3
    ensures Join(parts, sep) == parts[0] + [sep] + (parts[1] + [sep] + parts[2])
  {
    var two, one := [parts[1], parts[2]], [parts[2]];
    assert parts[1..] == two && two[1..] == one;
    assert Join(one, sep) == parts[2];
    assert Join(two, sep) == parts[1] + [sep] + Join(one, sep);
  }

  predicate EndsWith(s: string, c: char) {
    s != "" && s[|s| - 1] == c
  }

  lemma {:induction false} LastSegment(s: string, sep: char)
    ensures var r := Split(s, sep); (r[|r| - 1] == "" <==> s == "" || EndsWith(s, sep)) && (|r| >= 2 <==> sep in s)
  {
    if s != "" {
      LastSegment(s[1..], sep);
      assert s == [s[0]] + s[1..];
    }
  }

  /** Two separators in a row. */
  ghost predicate Doubled(s: string, sep: char) {
    exists i :: 0 <= i < |s| - 1 && s[i] == sep && s[i + 1] == sep
  }

  lemma DoubledTail(s: string, sep: char)
    requires s != ""
    ensures Doubled(s, sep) <==> (|s| >= 2 && s[0] == sep && s[1] == sep) || Doubled(s[1..], sep)
  {
    var tail := s[1..];
    assert forall i :: 0 <= i < |tail| ==> tail[i] == s[i + 1];
    if Doubled(s, sep) {
      var i :| 0 <= i < |s| - 1 && s[i] == sep && s[i + 1] == sep;
      assert i > 0 ==> tail[i - 1] == sep && tail[i - 1 + 1] == sep;
    }
    if Doubled(tail, sep) {
      var i :| 0 <= i < |tail| - 1 && tail[i] == sep && tail[i + 1] == sep;
      assert s[i + 1] == sep && s[i + 1 + 1] == sep;
    }
  }

  lemma FirstSegment(s: string, sep: char)
    ensures Split(s, sep)[0] == "" <==> s == "" || s[0] == sep
  {
  }

  /** Behind the first, an empty segment ends the text or stands between two separators. */
  lemma {:induction false} LaterSegments(s: string, sep: char)
    ensures "" in Split(s, sep)[1..] <==> EndsWith(s, sep) || Doubled(s, sep)
  {
    if s != "" {
      var tail := s[1..];
      var rest := Split(tail, sep);
      LaterSegments(tail, sep);
      FirstSegment(tail, sep);
      DoubledTail(s, sep);
      hide Doubled;
      assert rest == [rest[0]] + rest[1..];
      if s[0] == sep {
        assert Split(s, sep)[1..] == rest;
      } else {
        assert Split(s, sep)[1..] == rest[1..];
      }
    }
  }

  /** Why a text is refused: without a tilde or with one at its end the key binding is missing; with
      one at its beginning or two in a row a segment is empty; otherwise a part has the wrong shape. */
  lemma RefusalMeans(s: string)
    requires ParsePresentation(s).Failure?
    ensures ParsePresentation(s).error ==
      if '~' !in s || EndsWith(s, '~') then MissingKbJwt
      else if s[0] == '~' || Doubled(s, '~') then EmptySegment
      else ShapeInvalid
  {
    LastSegment(s, '~');
    LaterSegments(s, '~');
    FirstSegment(s, '~');
    var segments := Split(s, '~');
    assert segments == [segments[0]] + segments[1..];
    hide Split, Doubled, IsCompactJws, Base64UrlText;
  }
}
