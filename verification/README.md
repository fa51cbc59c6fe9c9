# Verified models of the commerce SDK's protocol core

This project models the parts of the SDK whose correctness rests on an argument over all inputs
or all runs, and proves that argument in Dafny:

- the structured-field codec, the signature base, the DER converter, and signing and verifying built on them
  (RFC 8941, RFC 9421, X.690);
- selective disclosure of claims: framing a JSON tree, presenting a choice of disclosures, unpacking them (RFC 9901);
- the canonical JSON text that idempotency hashes, against a reader of JSON (RFC 8259);
- the buyer's spend ledger: event log, replay, window caps, queue lock, and the purchase that drives it;
- the policy engine's approvals over its reference-counted snapshot store;
- the merchant's idempotent execution, as steps between awaits;
- card numbers, domain globs, minor-unit money, the transactional file writer and generated policy ids.

Code that mutates state is a class or a method with the source's loops, proved equal to a function of the old state;
what the source promises is then proved about those functions. Code made of expressions is functions and lemmas.
`dafny verify dfyconfig.toml` checks everything.

Conventions: JavaScript objects and `Map`s whose key order shows are sequences of pairs (`Records`); exceptions and
error returns are `Result` or `Option` values; clocks, random ids, salts and the outcome of every append, write or mint
are parameters; signing, hashing, URL parsing and JSON scalars are functions of the environment.

## What the proofs found

Each of these is a theorem and not assumed away: an exact condition where it says "if and only if", and an input that
reaches what it warns of.

- Caps. Settling checks nothing: it re-dates the reservation and takes any charge. Over every run the caps are kept
  after each operation if and only if each charge and each recorded spend fits when it is made
  (`LedgerCaps.CapsExactly`; for one settlement `LedgerCaps.SettleKeepsExactly`). A timely charge within what was
  reserved always fits (`TimelyFits`); one settled a day late need not (`LateSettlementPassesCap`). In the caller's own
  tables and milliseconds: `LedgerPromise.ReserveMeans` and `CapsPromised`.
- The limit check adds escalated amounts twice, so passing it is sufficient for the cap and not equivalent to it
  (`LedgerCaps.WindowAllows`, `LedgerMachine.EachReservationOnce`).
- Purchases. With a merchant that may do anything and appends that may fail anywhere, an exit says where its
  reservation is if and only if the merchant neither makes up the wallet's own "released" error nor asks for approval
  until an expiry that is no time, and the append that recovers from an error is not lost (`Wallet.ExitsAccount`,
  `Wallet.PurchaseAccounts`). The other exits leave it active (`MadeUpReleaseStrands`, `UnreadableExpiryStrands`,
  `StrandedRelease`), as does a first append that fails once its row is written: the caller gets the error and never
  the id (`StrandedStart`). Escalating again keeps the old expiry, whatever the error says (`PromisedExpiry`).
- File plans. After a failure the files are what they were if and only if the failing write leaves no new file and
  every path attempted more than once was last written over with its original contents (`FilePlanProof.AllOrNothing`).
  Without replacing, the first half decides (`FailModeAllOrNothing`); in replace mode a new path planned twice stays
  behind (`SamePathTwice`).
- A callback naming a wrong policy hash marks a prompt stale although its snapshot is in force; approving it afterwards
  records a credential that holds no reference, and the handler throws. The reference counts stay exact if and only if
  that step does not happen (`PolicyEngineProof.StepKeepsExactly`), and three events lead up to it (`MintForStaleReachable`).
- A request is signed and then accepted if and only if it can be signed, its agent names a profile, and its digest
  header is consistent (`SigningCondition.HonestRequestAccepted`). The agent `x` and, on a message without a body, the
  header `content-digest: x` are signed and then refused (`AgentRefused`, `StrayDigestRefused`).
- Signature bases. Equal bases always have the same components and parameters, whatever line breaks they contain. For
  components on one line each, other values give the same lines if and only if the beginning of some component's line
  occurs in its value or in the one before it (`BaseEvidence.LinesReadTwice`, `LinesConfused`, `BaseInjective`). An
  accepted message was signed if that is nowhere so in what was signed (`TamperEvidence.AcceptedWasSigned`); a request
  with such an agent is signed, and another one is accepted with its signature
  (`SecondReading.SecondReadingAccepted`). The scheme of a URL is not covered: over HTTP and HTTPS, each on its own
  port, the answer is the same (`TamperEvidence.SchemeNotCovered`).
- Disclosures. The verifier accepts two elements and collects digests inside list items; unpacking does neither. A
  disclosure can be applied if and only if it decodes to three elements, the second a string, and its digest is reached
  through objects (`DisclosureProof.ApplyExactly`); `TwoElementsNotApplied` and `CollectedNotApplied` pass the check
  and fail. Framing makes no others (`DisclosureTheorem.DisclosuresPass`, `UnpackProjects`).
- Numbers from 10^21 on are printed with an exponent that the parser refuses; a number comes back if and only if it is
  smaller and has at most three decimals (`SfNumbers.NumberRoundTrips`).
- DER lengths of 2^31 and more do not survive: the reader's shifts are 32-bit and signed (`Der.LengthRead`).
- The dictionary parser accepts a trailing comma (`SfRoundTrip.TrailingComma`).

## Model

| member | source | states |
|---|---|---|
| SfParserRun.ParseSf941Dict | packages/core/src/rfc9421.ts:107-131 | the cursor loop computes the recursive parse: an empty text is the empty dictionary, a trailing comma is accepted, a repeated key is not, errors as thrown |
| SfParserRun.SfParser.ParseNextMember | packages/core/src/rfc9421.ts:113-128 | one turn of the loop consumes a member and a comma, and always makes progress |
| SfParserRun.SfParser.ParseDictMember | packages/core/src/rfc9421.ts:114-122 | a key, then `=` and a value or the parameters of a bare true; refuses a key already read |
| SfParserRun.SfParser.ParseInnerListItems | packages/core/src/rfc9421.ts:545-558 | items are separated by blanks and the loop stops at the closing parenthesis |
| SfParserRun.SfParser.ParseParameters | packages/core/src/rfc9421.ts:566-579 | parameters are read while a semicolon follows; a repeated one overwrites in place |
| SfParserRun.SfParser.ParseBareItem | packages/core/src/rfc9421.ts:581-588 | the first character decides between string, bytes, boolean, number and token |
| SfParserRun.SfParser.ParseStringText | packages/core/src/rfc9421.ts:590-607 | reads a quoted string with its two escapes |
| SfParserRun.SfParser.ParseNumberText | packages/core/src/rfc9421.ts:627-639 | reads sign, digits, point and digits, and reports the raw text when there is no digit or the number is too large for a double |
| SfRoundTrip.ParseUndoesPrint | packages/core/src/rfc9421.ts:107-142 | for every dictionary with valid keys, valid tokens and numbers below 10^21 of at most three decimals, printing succeeds and parsing the text gives the dictionary back, up to empty versus absent parameter records |
| SfRoundTrip.PrintInjective | packages/core/src/rfc9421.ts:133-142 | two such dictionaries with the same text are the same up to empty parameter records |
| SfRoundTrip.MembersContinue | packages/core/src/rfc9421.ts:113-128 | after the text of any dictionary and a comma the parser goes on with what follows, whatever that is |
| SfRoundTrip.TrailingComma | packages/core/src/rfc9421.ts:124-127 | the text of any dictionary followed by a comma is accepted as that dictionary |
| SfRoundTrip.RepeatedKeyRefused | packages/core/src/rfc9421.ts:113-116 | the text of any dictionary followed by another member with one of its keys is refused, naming the key |
| SfRoundTrip.PrintsExactly | packages/core/src/rfc9421.ts:348-386 | printing succeeds if and only if every key and token is valid and every number finite |
| SfRoundTrip.IntegersPrintable | packages/core/src/rfc9421.ts:363-373 | an integer is one of the numbers the round trip keeps if and only if its size is below 10^21 |
| SfRoundTrip.NumberRounds | packages/core/src/rfc9421.ts:366-381 | the text of any finite number below 10^21 is read back as the number rounded to three decimals |
| SfNumbers.NumberRoundTrips | packages/core/src/rfc9421.ts:107-142 | a finite number survives printing and parsing a dictionary if and only if it has at most three decimals and is below 10^21; from there on the parser asks for a comma at its exponent |
| SfRoundTrip.NumberBack | packages/core/src/rfc9421.ts:366-381 | a printed number below 10^21 of at most three decimals is read back as that number, whatever delimiter follows |
| SfRoundTrip.BareBack | packages/core/src/rfc9421.ts:363-377 | every printable bare item is read back and the parser stops where its text stops |
| SfRoundTrip.ItemsBack | packages/core/src/rfc9421.ts:348-351 | the items of a printed inner list are read back up to the closing parenthesis |
| SfRoundTrip.ParamsBack | packages/core/src/rfc9421.ts:353-361 | printed parameters are read back in order after those already read |
| Base64.DecodeEncode | packages/core/src/rfc9421.ts:609-617 | decoding undoes encoding for byte strings of every length |
| Base64.EncodeMeans | packages/core/src/rfc9421.ts:364 | the symbols are the base-64 digits of the number that the bytes are to base 256, filled up as section 4 of RFC 4648 asks |
| Der.DerLengthRun | packages/core/src/rfc9421.ts:483-492 | the loop that peels off bytes writes the base-256 digits after their count |
| Der.ReadDerLengthRun | packages/core/src/rfc9421.ts:461-474 | the loop that shifts bytes in computes the 32-bit signed reading, and its errors |
| Der.StripLeadingZerosRun | packages/core/src/rfc9421.ts:494-498 | the loop drops every leading zero byte, all of them when there is nothing else |
| Der.LengthRead | packages/core/src/rfc9421.ts:461-492 | a written length is read back at any offset, as itself exactly when it is below 2^31 |
| Der.MinimalInteger | packages/core/src/rfc9421.ts:476-481 | the contents are the minimal non-negative two's-complement form of the same value (section 8.3.2 of X.690) |
| Der.RawRoundTrip | packages/core/src/rfc9421.ts:427-450 | for every even width the raw signature comes back when the sequence is shorter than 2^31, and is refused otherwise |
| DerMeaning.SignatureMeans | packages/core/src/rfc9421.ts:427-481 | a byte string is converted to this raw signature if and only if it is a sequence, of any definite lengths below 2^31, of the two integers that the halves stand for; lengths read as negative never lead to an answer |
| DerMeaning.WrittenMeans | packages/core/src/rfc9421.ts:443-450 | what is written is a sequence of the two integers that the halves stand for |
| Der.PayloadSize | packages/core/src/rfc9421.ts:443-450 | both signature widths in use are far below that limit |
| SignatureBase.LowerCaseHeaders | packages/core/src/rfc9421.ts:272-278 | names are lower-cased, values trimmed, later collisions win in place |
| SignatureBase.BaseAgrees | packages/core/src/rfc9421.ts:79-88 | the base depends on the headers only through the covered names |
| SignatureBase.HeaderMeans | packages/core/src/rfc9421.ts:272-278 | looking up a lower-cased name gives the trimmed value of the last header with that name in any case, and nothing when there is none |
| SignatureBase.LowerCasedGet | packages/core/src/rfc9421.ts:272-278 | lower-casing headers that are already lower case only trims their values |
| Signatures.SignUcpRequest | packages/ucp-signing/src/signatures.ts:99-134 | the assignments into one header record give the agent, digest, signature-input and signature headers, or the first error |
| KnownAnswers.BaseText | packages/core/src/rfc9421.ts:79-88 | the base of any message, whole: a line for each covered component, then the covered names and the key id |
| KnownAnswers.IdentifierMeans | packages/core/src/rfc9421.ts:332-338 | a component is a name, not empty, and the parameters behind it, whichever they are |
| KnownAnswers.QueryMeans | packages/core/src/rfc9421.ts:295-298 | a query is covered with its question mark, whether or not the caller wrote one |
| KnownAnswers.RequestValues | packages/ucp-signing/src/signatures.ts:108-123 | what a request's signature covers, from its verb, host, shown port, path, query and headers |
| KnownAnswers.FieldTexts | packages/ucp-signing/src/signatures.ts:123-133 | the two attached fields, written out |
| FieldAnswers.ClassesMean | packages/core/src/rfc9421.ts:76-77 | the characters of keys and tokens, listed |
| FieldAnswers.FiniteMeans | packages/core/src/rfc9421.ts:367-370 | a number is refused as not finite exactly from 2^1024 less half a last place on, either sign |
| FieldAnswers.ListsExample | packages/core/src/rfc9421.ts:133-142 | the example dictionary with lists of section 3.2 of RFC 8941 is printed as there |
| FieldAnswers.RatingExample | packages/core/src/rfc9421.ts:133-142 | the example with a decimal and a list of tokens |
| FieldAnswers.BooleansExample | packages/core/src/rfc9421.ts:133-142 | the example with booleans and a parameter |
| FieldAnswers.LanguagesExample | packages/core/src/rfc9421.ts:133-142 | and its example with a string and bytes |
| FieldAnswers.BlanksSkipped | packages/core/src/rfc9421.ts:107-131 | blanks before a dictionary and before the items of a list are skipped |
| FieldAnswers.BlanksAtComma | packages/core/src/rfc9421.ts:113-128 | blanks on both sides of a comma are skipped |
| KnownAnswers.ProfileMeans | packages/ucp-signing/src/signatures.ts:295-305 | the profile is read from the agent header when it is a URL and not empty |
| SignThenVerify.InputBack | packages/ucp-signing/src/signatures.ts:123-129 | the signature-input header text re-parses to the same components and key id |
| InputEvidence.InputMeans | packages/ucp-signing/src/signatures.ts:307-340 | for every list of items and parameters, the field is read as these components and parameters if and only if the items are those names alone and the entries are, in whatever order, the ones that are written for them |
| SignThenVerify.BaseSurvives | packages/ucp-signing/src/signatures.ts:204-217 | attaching the two signature headers and receiving them leaves the signature base unchanged |
| SignThenVerify.FieldsAreRead | packages/ucp-signing/src/signatures.ts:164-232 | headers that hold the two fields signed over their own base are verified unless a mandatory header, the agent's profile or the digest stops it, in this order |
| SignThenVerify.SignedIsRead | packages/ucp-signing/src/signatures.ts:164-232 | everything attached by signing is read back, so the headers the signer held decide the answer |
| SignThenVerify.SignedRequestVerifies | packages/ucp-signing/src/signatures.ts:99-232 | a signed request is refused without an agent, for an agent without a profile, or for an inconsistent digest header, with that reason, and otherwise verified with its key id, algorithm and profile |
| SignThenVerify.SignedResponseVerifies | packages/ucp-signing/src/signatures.ts:136-293 | a signed response is verified if and only if its digest header is consistent; otherwise the reason is the digest |
| SigningCondition.BaseSucceeds | packages/core/src/rfc9421.ts:79-88 | under any parameters a base exists if and only if every covered component has a value, there is a key id and the times given are safe integers |
| SigningCondition.SigningSucceeds | packages/ucp-signing/src/signatures.ts:99-134 | signing succeeds if and only if the request has a method, a host, a key id and the headers its method and body call for |
| SigningCondition.HonestRequestAccepted | packages/ucp-signing/src/signatures.ts:99-232 | a request is signed and then accepted if and only if it can be signed, its agent names a profile and its digest header is consistent |
| SigningCondition.HonestResponseAccepted | packages/ucp-signing/src/signatures.ts:136-293 | a response is signed and accepted if and only if it has a key id, a content type with a body, and a consistent digest header |
| SigningCondition.AgentRefused | packages/ucp-signing/src/signatures.ts:99-232 | a GET whose agent is `x` is signed and then refused for its agent |
| SigningCondition.StrayDigestRefused | packages/ucp-signing/src/signatures.ts:99-232 | a GET without a body that carries `content-digest: x` is signed and then refused for its digest |
| LineBreaks.AnotherReading | packages/core/src/rfc9421.ts:79-88 | values joined by separators that each begin with their only line break have another reading if and only if a separator occurs in a value beside its place |
| BaseEvidence.LastFound | packages/core/src/rfc9421.ts:79-88 | equal bases have equal component lines and equal last lines, whatever line breaks the values, names and parameters contain |
| BaseEvidence.LinesReadTwice | packages/core/src/rfc9421.ts:79-88 | for components on one line each, another list of values gives the same lines if and only if the beginning of some line occurs in its value or in the one before it |
| BaseEvidence.OneLineNotConfusable | packages/core/src/rfc9421.ts:79-88 | values without line breaks are never so |
| BaseEvidence.LinesConfused | packages/core/src/rfc9421.ts:79-88 | for distinct header names, other headers with the same lines exist if and only if that is so |
| BaseEvidence.BaseInjective | packages/core/src/rfc9421.ts:79-88 | equal signature bases cover the same components under the same parameters, and with the same values unless that is so of the first; nothing is asked of the second |
| BaseEvidence.MovedBase | packages/core/src/rfc9421.ts:79-88 | where a line's beginning occurs in the value before it, the message with the values cut there has the same base |
| SecondReading.SecondReadingAccepted | packages/ucp-signing/src/signatures.ts:99-232 | a POST whose agent goes on over the line of its idempotency key is signed, and the POST with the agent and key of the other reading is verified with that signature |
| TamperEvidence.SignsItsText | packages/ucp-signing/src/signatures.ts:114-133 | the attached signature is over the base of the request being signed |
| TamperEvidence.AcceptedMeans | packages/ucp-signing/src/signatures.ts:164-232 | acceptance implies that the required components are covered, the digest matches and the resolved key verifies the rebuilt base |
| TamperEvidence.AcceptedWasSigned | packages/ucp-signing/src/signatures.ts:164-232 | with keys that verify only what was signed, requests or responses, of which none can be read in two ways, an accepted request, whatever it contains, has the key id, method, host, shown port, path, query, agent, idempotency key, content type and body digest of some signed request |
| TamperEvidence.SameAuthority | packages/core/src/rfc9421.ts:90-95 | authorities are equal if and only if the hosts are, up to case, and so are the ports that are not the scheme's own |
| TamperEvidence.TargetMeans | packages/ucp-signing/src/signatures.ts:204-217 | two requests agree in all covered parts if and only if verb, host, shown port, path and query are the same |
| TamperEvidence.SchemeNotCovered | packages/ucp-signing/src/signatures.ts:164-232 | a request gets one answer over HTTPS and over HTTP, each on its own port |
| ResponseEvidence.AcceptedResponseWasSigned | packages/ucp-signing/src/signatures.ts:234-293 | in the same history an accepted response, whatever it contains, has the key id, status, content type and body digest of some signed response |
| SelectiveDisclosure.ApplyDisclosureFrame | packages/ucp-signing/src/ap2-mandate.ts:701-736 | the two loops, over hidden names and over child frames, compute the framed object and its disclosures in order |
| SelectiveDisclosure.PresentationFrameAllows | packages/ucp-signing/src/ap2-mandate.ts:738-744 | the loop decides whether the object met along the path in the presentation frame maps the name to true |
| SelectiveDisclosure.CollectSdDigests | packages/ucp-signing/src/ap2-mandate.ts:1028-1040 | the recursive loops collect exactly the digests listed anywhere, list items included |
| SelectiveDisclosure.VerifyDisclosureDigests | packages/ucp-signing/src/ap2-mandate.ts:1013-1026 | accepts if and only if the hash is known and every disclosure has two or three elements and a digest listed in the payload; otherwise the first that fails decides the reason |
| SelectiveDisclosure.ClaimsCopy.Apply | packages/ucp-signing/src/ap2-mandate.ts:1064-1077 | the copy of the claims gains the disclosed member, or stays as it was |
| Unpacking.UnpackClaims | packages/ucp-signing/src/ap2-mandate.ts:1051-1062 | parses the presentation, decodes the token, applies the disclosures in turn, gives up at the first failure, and strips at the end |
| Unpacking.PresentedTextUnpacks | packages/ucp-signing/src/ap2-mandate.ts:676-744 | the rendered text of a presentation of framed claims parses and unpacks to the claims minus the members framed and not chosen |
| DisclosureProof.InsertExactly | packages/ucp-signing/src/ap2-mandate.ts:1079-1088 | a container for a digest is found if and only if it is listed in an object reached through objects only |
| DisclosureProof.ApplyExactly | packages/ucp-signing/src/ap2-mandate.ts:1064-1088 | a disclosure can be applied if and only if it decodes to three elements, the second a string, and its digest is listed in such an object |
| DisclosureProof.TwoElementsNotApplied | packages/ucp-signing/src/ap2-mandate.ts:1042-1088 | a disclosure of two elements whose digest is listed at the root passes the verifier's check, yet cannot be applied |
| DisclosureProof.CollectedNotApplied | packages/ucp-signing/src/ap2-mandate.ts:1028-1088 | a digest listed inside a list item passes the verifier's check, yet its disclosure cannot be applied |
| DisclosureProof.HideFacts | packages/ucp-signing/src/ap2-mandate.ts:719-729 | hiding removes exactly the named members that exist, lists one digest for each and nothing else |
| DisclosureProof.FrameFacts | packages/ucp-signing/src/ap2-mandate.ts:712-736 | which members remain, with which frames applied, which disclosures arise and which digests are listed |
| DisclosureTheorem.PartialHolds | packages/ucp-signing/src/ap2-mandate.ts:1079-1088 | whatever has been revealed, the reachable digests are exactly those of the disclosures |
| DisclosureTheorem.RevealOne | packages/ucp-signing/src/ap2-mandate.ts:1064-1088 | applying a disclosure puts exactly its member back at its place, wherever the others have got to |
| DisclosureTheorem.StripPartial | packages/ucp-signing/src/ap2-mandate.ts:1090-1099 | stripping the metadata of a partly revealed tree leaves the projection of the claims |
| DisclosureTheorem.StripCleans | packages/ucp-signing/src/ap2-mandate.ts:1090-1099 | stripping leaves no metadata at any depth, list items included |
| DisclosureTheorem.UnpackProjects | packages/ucp-signing/src/ap2-mandate.ts:1051-1099 | unpacking any of the disclosures, in any order, gives the claims without the framed members that are not among them |
| DisclosureTheorem.PresentationProjects | packages/ucp-signing/src/ap2-mandate.ts:676-744 | framing, presenting what the presentation frame selects and unpacking gives the claims minus the members framed and not chosen, a member being chosen if the object met along its path in the frame maps its name to true |
| DisclosureTheorem.DisclosuresPass | packages/ucp-signing/src/ap2-mandate.ts:1013-1049 | every disclosure of a framing passes the verifier's check against the payload |
| Presentation.ParsesExactly | packages/ucp-signing/src/ap2-mandate.ts:652-663 | a text parses to a presentation if and only if the presentation is well shaped and the text is its rendering |
| Presentation.RefusalMeans | packages/ucp-signing/src/ap2-mandate.ts:652-663 | why a text is refused: no tilde or one at its end, one at its beginning or two in a row, or a part of the wrong shape, in this order |
| Presentation.CompactMeans | packages/ucp-signing/src/ap2-mandate.ts:1155-1158 | a compact token is three URL-safe base-64 parts with dots between them |
| Presentation.SdHashInputInjective | packages/ucp-signing/src/ap2-mandate.ts:1143-1145 | the text bound by the key-binding token determines the issuer token and the disclosures |
| StableJson.StableDecidesEquality | packages/merchant/src/checkout/server.ts:1317-1325 | two JSON values have the same canonical text if and only if they are equal up to the order of object members |
| StableJson.TextPrefix | packages/merchant/src/checkout/server.ts:1317-1325 | canonical texts are self-delimiting: equal continuations begin with equal values |
| StableJson.HashInputDecides | packages/merchant/src/checkout/server.ts:1313-1315 | the hashed text determines scope and body, whatever line breaks the scope contains |
| JsonReader.ReadStable | packages/merchant/src/checkout/server.ts:1317-1325 | the canonical text of a value, read by the grammar of JSON, is that value with the members of every object in order |
| JsonReader.EscapeShortest | packages/merchant/src/checkout/server.ts:1318 | a character is written in the shortest way that is read as it, without capitals where that leaves a choice |
| Ledger.VaultLedger.AppendRows | packages/buyer/src/vault/ledger.ts:482-495 | appending writes all rows or, when it fails, a prefix of them |
| Ledger.VaultLedger.Run | packages/buyer/src/vault/ledger.ts:246-385 | every locked operation reads the log, decides, and appends |
| Ledger.LedgerState.ApplyEvent | packages/buyer/src/vault/ledger.ts:610-661 | applying an event to the reservation map, with late rows ignored |
| Ledger.LedgerState.WindowUsage | packages/buyer/src/vault/ledger.ts:696-720 | the accumulating loop over reservations in a window |
| Ledger.ReplayEvents | packages/buyer/src/vault/ledger.ts:602-608 | replaying a log from nothing |
| LedgerMachine.LogRefinesMachine | packages/buyer/src/vault/ledger.ts:246-396 | appending the rows an operation writes and replaying is one step of the reservation machine with the same answer, for every operation |
| LedgerMachine.FaultySteps | packages/buyer/src/vault/ledger.ts:482-495 | a failing append leaves the log between where it was and where it would have been, and the operation throws |
| LedgerMachine.ExpiryReplayed | packages/buyer/src/vault/ledger.ts:186-208 | the release rows of a sweep release exactly the expired escalations |
| LedgerMachine.FinalIsAbsorbing | packages/buyer/src/vault/ledger.ts:628-661 | whatever rows with fresh ids follow, a released or captured reservation keeps its status, amount, currency, receipt and times |
| LedgerMachine.EachReservationOnce | packages/buyer/src/vault/ledger.ts:696-720 | reported pending plus captured is each active or captured amount once; the limit check's sum adds escalated amounts again |
| LedgerMachine.ReplayKeyed | packages/buyer/src/vault/ledger.ts:602-626 | every reachable reservation map has distinct keys, each the id of its reservation |
| LedgerCaps.WindowAllows | packages/buyer/src/vault/ledger.ts:671-694 | a window lets an amount through if and only if true usage plus escalated usage plus the amount fits the cap |
| LedgerCaps.UsageAges | packages/buyer/src/vault/ledger.ts:696-714 | as time passes amounts only leave a window |
| LedgerPromise.CurrencyMeans | packages/core/src/policy-yaml/normalize.ts:17-19 | two currencies are one if and only if, without the white space around them, they differ in case only |
| LedgerPromise.CapIs | packages/buyer/src/vault/ledger.ts:844-855 | a currency has the cap of the last entry of the caller's table that names it in any case, and none when no entry does |
| LedgerPromise.LimitsAllow | packages/buyer/src/vault/ledger.ts:671-720 | for a new amount, or in place of a reservation, the check passes if and only if each table lets the amount through, and otherwise names the first that does not and what is left of it |
| LedgerPromise.ReserveMeans | packages/buyer/src/vault/ledger.ts:246-281 | a reservation is made if and only if the amount fits the caller's daily, weekly and thirty-day tables |
| LedgerPromise.ReattachMeans | packages/buyer/src/vault/ledger.ts:373-385 | resuming gives an escalated reservation back until its expiry, to the millisecond; then it is released and refused |
| LedgerPromise.SweepMeans | packages/buyer/src/vault/ledger.ts:186-208 | the sweep releases exactly the overdue escalations |
| LedgerPromise.RecordMeans | packages/buyer/src/vault/ledger.ts:210-222 | a recorded spend counts in full if completed and for nothing if not, and keeps its receipt |
| LedgerCaps.SettleKeepsExactly | packages/buyer/src/vault/ledger.ts:345-357 | settling an active reservation, at any time, for any amount and in any currency, keeps the caps if and only if in every window capped in the charged currency the charge fits in place of the reservation |
| LedgerCaps.SpendKeepsExactly | packages/buyer/src/vault/ledger.ts:210-222 | recording a spend keeps the caps if and only if it fits |
| LedgerCaps.RowKeepsExactly | packages/buyer/src/vault/ledger.ts:610-661 | every row keeps the reservations sound, and keeps the caps if and only if its charge or spend fits; all other rows always do |
| LedgerCaps.StepKeepsExactly | packages/buyer/src/vault/ledger.ts:246-396 | every operation, its append failing or not, keeps the caps if and only if what it charges fits |
| LedgerCaps.CapsExactly | packages/buyer/src/vault/ledger.ts:246-396 | over a whole run from an empty ledger the caps are kept after every operation if and only if every charge and recorded spend fits when it is made |
| LedgerCaps.CapsHold | packages/buyer/src/vault/ledger.ts:246-396 | after such a run, at any later time, true usage in every capped window is within its cap |
| LedgerPromise.CapsPromised | packages/buyer/src/vault/ledger.ts:246-396 | the same in the caller's own tables, and the last 86,400,000, 604,800,000 and 2,592,000,000 milliseconds |
| LedgerCaps.TimelyFits | packages/buyer/src/vault/ledger.ts:652-657 | a charge within the reserved amount and currency, settled before the reservation ages out of a capped window, fits |
| LedgerCaps.LateSettlementPassesCap | packages/buyer/src/vault/ledger.ts:652-657 | two accepted reservations of 100 end at 200 against a cap of 100 when the first settles after a day |
| Wallet.PurchaseWithMerchant | packages/buyer/src/wallet/index.ts:497-571 | the try and catch blocks over the ledger give the log and the exit of the purchase function |
| Wallet.SettlementExits | packages/buyer/src/wallet/index.ts:548-570 | a normal return means captured with that receipt and a persisted shadow means active with that shadow, wherever settlement fails |
| Wallet.SettlementMeans | packages/buyer/src/wallet/index.ts:548-570 | an active reservation is captured once the settlement row is written, carries the shadow receipt when only that row is, and the receipt is returned exactly when the first append did not fail |
| Wallet.RecoverMeans | packages/buyer/src/wallet/index.ts:539-546 | an approval error escalates until its expiry, any other releases unless it says that it did, and the error is raised as it came unless the append fails or the expiry is no time |
| Wallet.AnnounceEffect | packages/buyer/src/wallet/index.ts:515-546 | announced totals release the reservation if and only if one of them was refused and its row written; otherwise it stays active, with its status and expiry |
| Wallet.TotalsMeans | packages/buyer/src/wallet/index.ts:522-536 | an accepted total becomes the reserved amount, a refused one releases the reservation and says so, provided that the row is written |
| Wallet.ExitsAccount | packages/buyer/src/wallet/index.ts:515-570 | whatever the merchant does and however appends fail, the exit says where the reservation is if and only if the merchant neither makes up a release nor names an expiry that is no time, and the recovering append is not lost; the other exits leave it active |
| Wallet.PurchaseAccounts | packages/buyer/src/wallet/index.ts:497-571 | the same for the whole purchase: denied and unapproved purchases touch nothing, and a start that throws leaves what its append left |
| Wallet.StartThrows | packages/buyer/src/vault/ledger.ts:246-281 | when starting throws, a new reservation exists if and only if its row was written, and one to resume is untouched unless it had expired |
| Wallet.StrandedStart | packages/buyer/src/vault/ledger.ts:482-495 | a first append that fails once its row is written throws and leaves an active reservation |
| Wallet.StrandedRelease | packages/buyer/src/wallet/index.ts:539-546 | a failing merchant and a release that cannot be written leave the reservation active behind the append error |
| Wallet.UnreadableExpiryStrands | packages/buyer/src/wallet/index.ts:540-543 | an approval error whose expiry is no time leaves the log as it is and the reservation active behind the conversion error |
| Wallet.PromisedExpiry | packages/buyer/src/vault/ledger.ts:637-641 | an approval error promises the expiry the ledger holds if and only if the reservation was still pending, or had that very expiry |
| Wallet.ReconcileMeans | packages/buyer/src/wallet/index.ts:708-720 | releasing releases, completing captures with the given receipt or else the shadow one and asks for one without either; only an active reservation is touched |
| Wallet.ReconcileCapturesShadow | packages/buyer/src/wallet/index.ts:708-720 | reconciling as complete captures exactly the shadow receipt |
| Wallet.MadeUpReleaseStrands | packages/buyer/src/wallet/index.ts:539-546 | such a merchant leaves the reservation active behind an error that says it was released |
| TaskQueue.LedgerQueues.Enter | packages/buyer/src/vault/ledger.ts:585-592 | a task chains onto the last task of its path and becomes the entry |
| TaskQueue.LedgerQueues.Leave | packages/buyer/src/vault/ledger.ts:593-600 | an ending task removes the entry only when it is its own |
| TaskQueue.SettledMeans | packages/buyer/src/vault/ledger.ts:586-592 | the promise a task waits for settles exactly when every earlier task of its path is over |
| TaskQueue.FifoLock | packages/buyer/src/vault/ledger.ts:585-600 | in every reachable state whatever has started found all earlier arrivals of its path over |
| TaskQueue.NextInLine | packages/buyer/src/vault/ledger.ts:585-600 | a waiting task may start if and only if all earlier ones of its path are over, failed or not |
| TaskQueue.NoDeadlock | packages/buyer/src/vault/ledger.ts:585-600 | from every reachable state all queued tasks can still be started and ended, in the order of arrival, and then no path has an entry |
| TaskQueue.EntryWhileBusy | packages/buyer/src/vault/ledger.ts:596-599 | a path has an entry exactly while one of its tasks is unfinished, and it is the last arrival |
| Snapshots.PolicySnapshotStore.AddPolicy | packages/policy/src/snapshot.ts:15-23 | a new hash stores the policy with zero references, a known one keeps its policy and count; all others stay and it becomes current |
| Snapshots.PolicySnapshotStore.RetainHash | packages/policy/src/snapshot.ts:36-40 | one reference more, or refused for an unknown hash |
| Snapshots.PolicySnapshotStore.ReleaseHash | packages/policy/src/snapshot.ts:42-46 | one reference less, or refused when nothing is retained |
| Snapshots.PolicySnapshotStore.Collect | packages/policy/src/snapshot.ts:48-58 | deleting while looping drops exactly the unreferenced hashes that are not current |
| PolicyEngine.Approvals.ClosePrompt | packages/policy/src/engine.ts:871-896 | frees a pending reservation, drops the snapshot reference, collects, and stores the final state |
| PolicyEngine.Approvals.HandleApprovalCallback | packages/policy/src/engine.ts:432-489 | the checks in order, and the state each answer leaves |
| PolicyEngine.Approvals.CancelIntent | packages/policy/src/engine.ts:417-430 | closes a pending prompt, leaves anything else |
| PolicyEngine.Approvals.CreateApproval | packages/policy/src/engine.ts:539-679 | reserve, retain, prompt, record; a failing prompt undoes the first two |
| PolicyEngine.Approvals.AllowIntent | packages/policy/src/engine.ts:337-396 | reserve, retain, mint, commit, record; a failing mint undoes the first two |
| PolicyEngine.Approvals.GetApprovalStatus | packages/policy/src/engine.ts:399-415 | reports the intent's mapped state, prompt and credential, expiring a pending prompt whose time has come |
| PolicyEngineProof.StatusMeans | packages/policy/src/engine.ts:1107-1112 | a prompt is reported pending exactly until it expires, approved with its one credential, expired when it is or its time has come, and denied otherwise |
| PolicyEngine.Approvals.ReleaseCredentialSnapshot | packages/policy/src/engine.ts:898-903 | a credential gives its reference back once |
| PolicyEngine.Approvals.ReloadPolicy | packages/policy/src/engine.ts:249-256 | the new policy is in force and unreferenced ones are collected |
| PolicyEngineProof.StepKeepsExactly | packages/policy/src/engine.ts:337-489 | a step keeps every count equal to pending prompts plus unreleased credentials, and every record consistent, if and only if it does not mint for a stale prompt |
| PolicyEngineProof.MintForStaleBreaks | packages/policy/src/engine.ts:432-489 | that step records a credential that holds no reference, and throws |
| PolicyEngineProof.MintForStaleReachable | packages/policy/src/engine.ts:249-489 | reload, propose, and a callback naming another policy reach, with counts intact, a state in which approving is that step |
| PolicyEngineProof.CountsExact | packages/policy/src/engine.ts:609-630 | in every run without it each count is exact, so releasing a credential never underflows and nothing held is collected |
| PolicyEngineProof.PromptsConsistent | packages/policy/src/engine.ts:758-801 | a pending prompt's reservation is reserved, an approved one's committed, any other's freed; a prompt has at most one credential |
| PolicyEngineProof.FinalPromptsStay | packages/policy/src/engine.ts:417-489 | approved, denied, expired and cancelled prompts never change again |
| PolicyEngineProof.ReservationsFinal | packages/policy/src/engine.ts:881-889 | a reservation is committed once or freed once, never both |
| PolicyEngineEffects.PendingCallback | packages/policy/src/engine.ts:432-489 | what a callback makes of a pending prompt: a wrong nonce nothing; then expiry, another policy, a denial each end it in that state, its reservation freed and its count one less; an approval commits the reservation and records the credential |
| PolicyEngineEffects.LateCallback | packages/policy/src/engine.ts:432-489 | a prompt that is not pending answers why and stays as it is, but for a stale one that is denied |
| PolicyEngineEffects.AnsweredOnce | packages/policy/src/engine.ts:441-443 | after a denial or an approval, whatever happens then, a callback with the nonce is a replay and changes nothing |
| PolicyEngineEffects.ProposeMeans | packages/policy/src/engine.ts:258-396 | a used key is answered from memory; a new one leaves the prompt, credential, refusal or nothing at all that the evaluation calls for |
| PolicyEngineEffects.EnvelopeStays | packages/policy/src/engine.ts:258-263 | a remembered envelope stays the answer to its key |
| PolicyEngineEffects.CancelMeans | packages/policy/src/engine.ts:417-430 | cancelling ends a pending prompt as cancelled, frees its reservation, drops its reference, and does nothing else |
| PolicyEngineEffects.StatusEnds | packages/policy/src/engine.ts:399-415 | asking for a status ends a pending prompt whose time has come and does nothing else |
| PolicyEngineEffects.ReleaseMeans | packages/policy/src/engine.ts:898-903 | a credential gives its reference back the first time only |
| PolicyEngineEffects.ReloadMeans | packages/policy/src/engine.ts:249-256 | the new policy is in force, counts stay, and exactly what is neither in force nor referenced goes |
| PolicyEngineProof.CloseKeepsCounts | packages/policy/src/engine.ts:871-896 | closing a pending prompt keeps every count exact |
| Idempotency.MemoryIdempotencyStore.Remember | packages/merchant/src/checkout/idempotency.ts:60-84 | the segment up to the first await: prune, replay, conflict, join, or start a run |
| Idempotency.MemoryIdempotencyStore.PruneExpired | packages/merchant/src/checkout/idempotency.ts:102-107 | the deleting loop keeps exactly the records that have not expired |
| Idempotency.MemoryIdempotencyStore.FinishRun | packages/merchant/src/checkout/idempotency.ts:86-100 | a usable response is stored with its expiry; a failure or a status that is no integer stores nothing |
| Idempotency.MemoryIdempotencyStore.ResumeCall | packages/merchant/src/checkout/idempotency.ts:77-83 | a caller gets the run's outcome; the owner clears the in-flight entry |
| Idempotency.SettleMeans | packages/merchant/src/checkout/idempotency.ts:86-100 | a response with an integer status is the outcome and is stored with that status and body until so many seconds later; an error or another status is the failure told and stores nothing |
| Idempotency.ResumeMeans | packages/merchant/src/checkout/idempotency.ts:69-83 | a resumed caller is given that response or that error; the owner's entry goes and the run is over |
| Idempotency.FailedRunsAgain | packages/merchant/src/checkout/idempotency.ts:60-84 | after a failed run is over the next arrival for its key runs the function |
| Idempotency.Replays | packages/merchant/src/checkout/idempotency.ts:65-66 | until it expires a stored response answers every arrival with its hash, any other hash conflicts, and nothing runs |
| Idempotency.NoSecondRun | packages/merchant/src/checkout/idempotency.ts:60-84 | of two runs for a key in any interleaving, the earlier had settled, been served and its record expired before the later began |
| Idempotency.ArriveMeans | packages/merchant/src/checkout/idempotency.ts:65-79 | the function runs if and only if no run of the key is in flight or remembered; otherwise the caller is referred to the latest run, and a different hash conflicts without running |
| Idempotency.CallersAgree | packages/merchant/src/checkout/idempotency.ts:66-83 | every caller with a run's body hash is told what that run came to, every other one of the conflict |
| Idempotency.ClearsOwnEntry | packages/merchant/src/checkout/idempotency.ts:79-83 | the entry a caller clears is its own |
| Luhn.LuhnValid | packages/buyer/src/vault/card.ts:133-146 | the right-to-left loop decides whether the weighted sum is a multiple of ten |
| Luhn.SumMeans | packages/buyer/src/vault/card.ts:133-146 | the weighted sum is the sum of the digits once every second one from the right is written doubled |
| Luhn.SubstitutionDetected | packages/buyer/src/vault/card.ts:133-146 | changing any one digit of a valid number makes it invalid, at any length |
| Luhn.TranspositionDetected | packages/buyer/src/vault/card.ts:133-146 | swapping neighbours goes unnoticed if and only if they are equal or are 0 and 9 |
| Luhn.OneCheckDigit | packages/buyer/src/vault/card.ts:133-146 | every digit string has exactly one check digit |
| Glob.MatchMeans | packages/core/src/policy-yaml/glob.ts:11-21 | matching holds if and only if the labels can be cut so that `*` takes one, a non-final `**` any number and a final `**` at least one |
| Glob.NeverEmpty | packages/core/src/policy-yaml/glob.ts:11-17 | a pattern with parts never matches no labels, which is why the recursion may skip the empty suffix |
| Money.RoundTrip | packages/policy/src/money.ts:31-54 | every integer amount of every known currency is printed and read back as itself |
| Money.FromMajorMeans | packages/policy/src/money.ts:31-45 | well-formed text is read as what its digits say, or refused for too many decimals |
| Money.InvalidMeans | packages/policy/src/money.ts:31-34 | text is refused as malformed if and only if it is not sign, digits and perhaps a point and digits |
| Money.OneUnit | packages/policy/src/money.ts:3-29 | the text of one major unit is 1, 100 or 1000 minor units by the table of currencies, in any case, and unknown for every other |
| Money.ToMajorMeans | packages/policy/src/money.ts:46-54 | amounts are printed with all decimals of the currency, no leading zeros, and a minus sign exactly when negative |
| Money.RoundsToNearestEven | packages/policy/src/money.ts:80-86 | an integer is the rounding if and only if it is nearest, ties going to the even one |
| Money.RoundMonotone | packages/policy/src/money.ts:80-86 | rounding keeps order |
| Money.RoundSymmetric | packages/policy/src/money.ts:80-86 | rounding commutes with the sign |
| Money.ConversionNearest | packages/policy/src/money.ts:64-74 | a conversion is within half a minor unit of the exact amount |
| Money.ConversionMeans | packages/policy/src/money.ts:64-74 | what is rounded is amount times rate in the units of the other currency, and it is refused exactly beyond the safe integers |
| Money.ConversionMonotone | packages/policy/src/money.ts:64-74 | conversion keeps the order of amounts |
| Money.ThereAndBack | packages/policy/src/money.ts:64-74 | converting to units that are no coarser and back at the inverse rate gives the amount |
| FilePlan.Workspace.WritePlanTransactional | packages/cli/src/init/codegen.ts:31-76 | the loop stops at the first failure, names that entry, and leaves the files the plan function gives |
| FilePlan.Workspace.RollBack | packages/cli/src/init/codegen.ts:58-69 | removes the written files that did not exist and restores the others |
| FilePlan.Workspace.WriteEntry | packages/cli/src/init/codegen.ts:40-53 | looks whether the path is taken, refuses or remembers it, and writes |
| FilePlanProof.AllOrNothing | packages/cli/src/init/codegen.ts:4-7 | for any plan, mode and failing entry the files end as they were if and only if the failing write leaves no new file and every path attempted more than once was last written over with its original contents |
| FilePlanProof.FailModeAllOrNothing | packages/cli/src/init/codegen.ts:31-76 | without replacing, any plan with any repeated paths is undone completely if and only if the failing write leaves no new file |
| FilePlanProof.RestoresMeans | packages/cli/src/init/codegen.ts:58-69 | that condition on the plan says of every path that the contents remembered last are the original ones |
| FilePlanProof.AllWritten | packages/cli/src/init/codegen.ts:31-56 | without a failure every planned file holds its contents and nothing else changes, if and only if entries for one path agree |
| FilePlanProof.SamePathTwice | packages/cli/src/init/codegen.ts:58-69 | with a new path planned twice in replace mode a later failure does not restore the files |
| PolicyIds.Unused | packages/core/src/commerce-manifest.ts:126-132 | the suffix search ends, at the first candidate that is not reserved |
| PolicyIds.NormalizePolicies | packages/core/src/commerce-manifest.ts:114-139 | explicit ids are kept, every other id is the first of its kind neither explicit anywhere nor given earlier; fails exactly at the first repeated explicit id |
| PolicyIds.IdsMean | packages/core/src/commerce-manifest.ts:114-139 | a non-empty explicit id is kept; otherwise the id is the kind when not in use, or the kind with the first number from 2 on that is not |
| PolicyIds.IdsDistinct | packages/core/src/commerce-manifest.ts:114-139 | the ids are pairwise distinct |
| PolicyIds.IdsDetermined | packages/core/src/commerce-manifest.ts:122-138 | the policies determine the ids |

## Left out

- Cryptography: ECDSA, SHA-256, Ed25519, xsalsa20 and argon2 are functions of the environment with the stated ideal properties; ledger encryption, the vault file format and its framing are not modelled.
- JSON scalars, URL parsing, schemas and YAML: of a parsed URL it is used that colons of a host are inside brackets, a port is digits and a query begins with its question mark; strings are quoted as JSON quotes them, numbers keep the text they are printed with, `ProfileUrl` takes "is a URL" as a parameter.
- Selective disclosure in place: framing and unpacking are methods that reassign map values, so aliasing between subtrees is not captured; the order in which object members are visited is a parameter and the salt a function of path and key.
- SfRoundTrip.ParseUndoesPrint: numbers are exact reals; rounding decimal text to the nearest double is not modelled. Exponents are, with the digits of the exact value where JavaScript prints the shortest ones that identify the double.
- SfNumbers.NumberRoundTrips: a number is the exact decimal meant; the double 0.1, whose exact value has more decimals, survives in the source as the 0.1 of the model does.
- SfParserRun.SfParser.ParseNumberText: refuses what is too large for a double as the source does, and otherwise reads the exact real, not the nearest double.
- SfRoundTrip.IntegersPrintable: integers are exact; between 2^53 and 10^21 a double may not hold the integer meant.
- Base64.DecodeEncode: covers what encoding produces; decoding skips characters outside the alphabets, and strings hold characters, not UTF-8 bytes.
- JsonReader.ReadText: reads compact texts only, and no escaped surrogates; numbers keep their text. The source has no reader of its own.
- Case mapping is ASCII only in header names, methods and currency codes.
- JavaScript's special object keys (`__proto__`, integer-like names listed first) are not modelled for headers and claims; structured-field keys cannot be either.
- TamperEvidence.AcceptedWasSigned: asks that no signed message can be read in two ways, as is so when covered values contain no line break (`BaseEvidence.OneLineNotConfusable`), which HTTP guarantees of header values; created and expires are parsed and compared but, as in the source, never checked against the clock.
- BaseEvidence.BaseInjective: component names are plain and, as for every UCP message, on one line.
- Ledger: times, amounts and charges are integers, row ids are parameters, rows are written whole or not at all (a short write would leave a torn line that swallows the next row), reading the log does not fail, file locks between processes and the migration of legacy ledgers are outside the model.
- LedgerCaps.CapsExactly: assumes one limit table, new ids, and amounts and charges that are not negative; the same for `LedgerCaps.CapsHold`. For recorded spends new ids are an assumption about the caller: an id is a hash of time, intent, merchant, amount and currency, so recording one spend again as failed replaces a captured entry by a released one.
- LedgerMachine.FinalIsAbsorbing: the ids of later reservations and recorded spends are new, with the same caveat.
- Wallet.ExitsAccount: the merchant announces totals one after the other and no other operation on the reservation runs in between; card reveal, approval proofs and instrument choice are outside the model.
- PolicyEngineProof.StepKeepsExactly: handlers are atomic and nothing fails after the rail has minted; the source awaits the rail, so two approving callbacks for one prompt can both mint, which the model does not show; evaluation, limits, the approval budget, audit records and persistence are parameters or outside the model.
- PolicyEngine.Propose: the evaluator's decision, the approval channel's and the rail's answers and the limit check are parameters; callers are taken to be authenticated.
- Idempotency.NoSecondRun: the guarded function does not call the store again for its key before its first await; the clock does not run backwards; the file-backed variant and its lock files are outside the model.
- FilePlanProof.AllOrNothing: paths are resolved, contents are text, directories and the rollback's own failures are outside the model.
- Money.ConversionNearest: rates and amounts are exact; the source multiplies IEEE doubles.
- Money.ConversionMonotone: exact products too; rounding a double is monotone, but that is not proved here.
- Money.ThereAndBack: the inverse rate is the exact one; a double's reciprocal need not be.
- Policy evaluation, limit merging, card selection, checkout totals, payment-requirement selection and status tables: they would only add easy members.
