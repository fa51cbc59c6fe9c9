/** From the text of a presentation to the claims it discloses. */
module Unpacking {
  import opened Records
  import opened Json
  import opened SelectiveDisclosure
  import opened DisclosureProof
  import opened DisclosureTheorem
  import opened Presentation

  /** `payloadOf` decodes the payload of a compact token, if it is one. */
  function UnpackText(c: Codec, payloadOf: string -> Option<Value>, text: string): Option<Value> {
    match ParsePresentation(text)
    case Failure(_) => None
    case Success(p) =>
      var payload := payloadOf(p.sdJwt);
      if payload.None? then None else Unpack(c, payload.value, p.disclosures)
  }

  /** As it runs: parse, decode, copy the payload, apply one disclosure after the other, strip. */
  method UnpackClaims(c: Codec, payloadOf: string -> Option<Value>, text: string) returns (r: Option<Value>)
    ensures r == UnpackText(c, payloadOf, text)
  {
    hide ApplyDisclosure, Strip, ParsePresentation;
    var parsed := ParsePresentation(text);
    if parsed.Failure? {
      return None;
    }
    var payload := payloadOf(parsed.value.sdJwt);
    if payload.None? {
      return None;
    }
    var disclosures := parsed.value.disclosures;
    var copy := new ClaimsCopy(payload.value);
    assert disclosures[0..] == disclosures;
    for i := 0 to |disclosures|
      invariant ApplyAll(c, payload.value, disclosures) == ApplyAll(c, copy.claims, disclosures[i..])
    {
      assert disclosures[i..][1..] == disclosures[i + 1..];
      var ok := copy.Apply(c, disclosures[i]);
      if !ok {
        return None;
      }
    }
    r := Some(Strip(copy.claims));
  }

  /** A presentation of framed claims, rendered as text with the selected disclosures, is parsed
      and unpacked to exactly the claims minus the members framed and not chosen. */
  lemma PresentedTextUnpacks(c: Codec, payloadOf: string -> Option<Value>, claims: Members, f: Frame, frame: Value,
      sdJwt: string, kbJwt: string)
    requires Ideal(c) && Clean(VObj(claims)) && CleanFrame(f) && DistinctEncodings(Recs(c, VObj(claims), f, []))
    requires IsCompactJws(sdJwt) && IsCompactJws(kbJwt) && payloadOf(sdJwt) == Some(Payload(c, claims, f))
    requires forall r :: r in Recs(c, VObj(claims), f, []) ==> Base64UrlText(r.encoded)
    ensures var p := Parsed(sdJwt, Encodings(Selected(Recs(c, VObj(claims), f, []), frame)), kbJwt);
            UnpackText(c, payloadOf, Render(p))
              == Some(ProjectChosen(claims, f, frame))
  {
    hide Recs, Clean, CleanFrame, Unpack, Payload, Project, Ideal, ProjectChosen, Chosen, IsCompactJws, Base64UrlText,
      ParsePresentation, Render, Selected;
    var recs := Recs(c, VObj(claims), f, []);
    var ds := Selected(recs, frame);
    SelectedMeans(recs, frame);
    var p := Parsed(sdJwt, Encodings(ds), kbJwt);
    forall i | 0 <= i < |ds|
      ensures Base64UrlText(p.disclosures[i])
    {
      assert ds[i] in ds;
    }
    ParsesExactly(Render(p), p);
    PresentationProjects(c, claims, f, frame);
  }
}
