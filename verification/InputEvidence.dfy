/** What a verifier reads from the input field, for every list of items and parameters. */
module InputEvidence {
  import opened Records
  import opened Text
  import opened StructuredFields
  import opened SignatureBase
  import opened SfRoundTrip
  import opened Signatures
  import opened SignThenVerify
  import opened BaseEvidence
  import opened SfNumbers

  function InputDict(items: seq<Item>, ps: Params): Dict {
    [("sig1", InnerList(items, Some(ps)))]
  }

  /** What is read from a member that is a list. */
  function InputOf(items: seq<Item>, ps: Params): Option<(seq<string>, SignatureParameters)> {
    var keyid := Get(ps, "keyid");
    var created, expires, nonce := SafeInteger(Get(ps, "created")), SafeInteger(Get(ps, "expires")),
      Nonce(Get(ps, "nonce"));
    if !OnlyKnownParams(ps) || keyid.None? || !keyid.value.Str? || keyid.value.text == "" then None
    else if created.None? || expires.None? || nonce.None? || !PlainStrings(items) then None
    else Some((Texts(items), SignatureParameters(keyid.value.text, created.value, expires.value, nonce.value)))
  }

  lemma InputIs(items: seq<Item>, ps: Params)
    requires PrintableMember(InnerList(items, Some(ps)))
    ensures var text := PrintDict(InputDict(items, ps));
            text.Success? && ParseSignatureInput(text.value) == InputOf(ParsedItems(items), ps)
  {
    hide PrintDict, ParseDict, ValidKey, IndexOf, PrintableMember, SafeInteger, Nonce, OnlyKnownParams, PlainStrings;
    var d := InputDict(items, ps);
    KeysValid();
    ParseUndoesPrint(d);
    assert ParsedDict(d) == [("sig1", InnerList(ParsedItems(items), Some(ps)))];
    SingleGet(ParsedDict(d), "sig1");
  }

  /** The parameters that are written, by name. */
  function Written(p: SignatureParameters, key: string): Option<BareItem> {
    if key == "created" then NumOf(p.created)
    else if key == "expires" then NumOf(p.expires)
    else if key == "keyid" then Some(Str(p.keyid))
    else if key == "nonce" && p.nonce.Some? then Some(Str(p.nonce.value))
    else None
  }

  lemma GetBehind<V>(a: seq<(string, V)>, b: seq<(string, V)>, key: string)
    requires |a| <= 1
    ensures Get(a + b, key) == if |a| == 1 && a[0].0 == key then Some(a[0].1) else Get(b, key)
  {
    if |a| == 1 {
      assert (a + b)[1..] == b;
    } else {
      assert a + b == b;
    }
  }

  lemma WrittenGet(p: SignatureParameters, key: string)
    requires ParamsOf(p).Success?
    ensures Get(ParamsOf(p).value, key) == Written(p, key)
  {
    hide Get, NumOf, Unsafe;
    var a, b := OptionalParam("created", NumOf(p.created)), OptionalParam("expires", NumOf(p.expires));
    var c: Params := [("keyid", Str(p.keyid))];
    var d := OptionalParam("nonce", if p.nonce.Some? then Some(Str(p.nonce.value)) else None);
    assert ParamsOf(p).value == a + (b + (c + (d + [])));
    GetBehind(a, b + (c + (d + [])), key);
    GetBehind(b, c + (d + []), key);
    GetBehind(c, d + [], key);
    GetBehind(d, [], key);
    NothingThere(key);
  }

  lemma NothingThere(key: string)
    ensures Get<string, BareItem>([], key) == None
  {
  }

  lemma TimeRead(b: Option<BareItem>, n: Option<int>)
    ensures SafeInteger(b) == Some(n) <==> b == NumOf(n) && !Unsafe(n)
  {
  }

  lemma NonceRead(b: Option<BareItem>, n: Option<string>)
    ensures Nonce(b) == Some(n) <==> b == if n.Some? then Some(Str(n.value)) else None
  {
  }

  predicate Known(key: string) {
    key == "keyid" || key == "created" || key == "expires" || key == "nonce"
  }

  lemma KnownOnly(ps: Params)
    ensures OnlyKnownParams(ps) <==> forall key :: Get(ps, key).Some? ==> Known(key)
  {
    if OnlyKnownParams(ps) {
      forall key | Get(ps, key).Some?
        ensures Known(key)
      {
        assert ps[IndexOf(ps, key)].0 == key;
      }
    }
    if forall key :: Get(ps, key).Some? ==> Known(key) {
      forall i | 0 <= i < |ps|
        ensures Known(ps[i].0)
      {
        assert Get(ps, ps[i].0).Some?;
      }
    }
  }

  lemma TextsRead(items: seq<Item>, cs: seq<string>)
    ensures PlainStrings(items) && Texts(items) == cs <==> items == InputItems(cs)
  {
    if PlainStrings(items) && Texts(items) == cs {
      forall i | 0 <= i < |items|
        ensures items[i] == InputItems(cs)[i]
      {
        assert Texts(items)[i] == cs[i];
      }
    }
  }

  ghost predicate SameEntries(ps: Params, qs: Params) {
    forall key :: Get(ps, key) == Get(qs, key)
  }

  lemma EntriesRead(ps: Params, p: SignatureParameters)
    ensures ParamsOf(p).Success? && SameEntries(ps, ParamsOf(p).value) <==>
        p.keyid != "" && !Unsafe(p.created) && !Unsafe(p.expires) && forall key :: Get(ps, key) == Written(p, key)
  {
    hide Get, Written, Unsafe;
    if ParamsOf(p).Success? {
      forall key
        ensures Get(ParamsOf(p).value, key) == Written(p, key)
      {
        WrittenGet(p, key);
      }
    }
  }

  lemma ParamsRead(items: seq<Item>, ps: Params, cs: seq<string>, p: SignatureParameters)
    ensures InputOf(items, ps) == Some((cs, p)) <==>
        items == InputItems(cs) && ParamsOf(p).Success? && SameEntries(ps, ParamsOf(p).value)
  {
    EntriesRead(ps, p);
    TimeRead(Get(ps, "created"), p.created);
    TimeRead(Get(ps, "expires"), p.expires);
    NonceRead(Get(ps, "nonce"), p.nonce);
    KnownOnly(ps);
    TextsRead(items, cs);
    hide Get, SafeInteger, Nonce, OnlyKnownParams, PlainStrings, Texts, SameEntries, ParamsOf, Unsafe, NumOf;
    if p.keyid != "" && forall key :: Get(ps, key) == Written(p, key) {
      forall key | Get(ps, key).Some?
        ensures Known(key)
      {
        assert Written(p, key).Some?;
      }
    }
    if InputOf(items, ps) == Some((cs, p)) {
      forall key
        ensures Get(ps, key) == Written(p, key)
      {
        assert Get(ps, key).Some? ==> Known(key);
      }
    }
  }

  /** The field is read as these components and parameters if and only if its items are those names
      alone and its entries are, in whatever order, the ones that are written for the parameters. */
  lemma InputMeans(items: seq<Item>, ps: Params, cs: seq<string>, p: SignatureParameters)
    requires PrintableMember(InnerList(items, Some(ps)))
    ensures PrintDict(InputDict(items, ps)).Success?
    ensures ParseSignatureInput(PrintDict(InputDict(items, ps)).value) == Some((cs, p)) <==>
        ParsedItems(items) == InputItems(cs) && ParamsOf(p).Success? && SameEntries(ps, ParamsOf(p).value)
  {
    hide PrintDict, ParseSignatureInput, PrintableMember, InputOf, ParamsOf, SameEntries;
    InputIs(items, ps);
    ParamsRead(ParsedItems(items), ps, cs, p);
  }
}
