# A verified model of the DNS resolver

A model, in Dafny, of a recursive DNS resolver that validates DNSSEC, with proofs
of what its documentation promises. `dafny verify dfyconfig.toml` checks all of it.

## What is modelled

Names are sequences of labels, labels sequences of octets, and comparisons fold
ASCII case only. `Dotted.dfy` proves that, on names whose labels hold no dots, this
is the same as the program's comparisons of dotted text.

**Denial of existence.** `Zones.dfy` gives a zone (a finite set of owners under an
apex, with types) and the lookup of RFC 4592 and RFC 1034 it is measured against:
referral, exact match, empty non-terminal, wildcard at the closest encloser.
`Gaps.dfy` proves the geometry: the canonical order is total, every subtree is an
interval of it, so a gap of the NSEC chain fixes the closest encloser. `Denial.dfy`
and `Nsec3.dfy` hold the checkers, and `DenialProofs.dfy` and `Nsec3Proofs.dfy` say
what their verdicts mean for the zone that signed the records, for any subset of its
records in any order; `DenialProofs.dfy` and `Nsec3Exact.dfy` say when they succeed
given all of them. `DenialExamples.dfy` and `Nsec3Examples.dfy` show, on concrete
zones, where a verdict means less than its name.

**The wire format.** `Decode.dfy` and `Encode.dfy` are the reader's cursor and the
writer with its table of suffixes and its back-patched lengths. `Codec.dfy` proves
that a packed message unpacks to the same message, and `Reencode.dfy` that any octets
the reader accepts can be packed again. `WireExamples.dfy` reads a response octet by
octet.

**Signatures.** `Signing.dfy` rebuilds the octets a signature is made over.
`SigningProofs.dfy` proves that they depend on the record set and nothing else, and
that no two sets share them; `SignedLayout.dfy`, field by field with the readers of the
wire format, exactly which octets they are. The cryptography is a pair of functions.

**The walk.** `Trust.dfy` defines the chain of trust from an anchor, a verified
record, and what excuses an unverified one, each with the message that was received
and the signature it held. `Resolution.dfy`, `Referrals.dfy`, `Aliases.dfy` and
`Delegations.dfy` hold the pieces and the two caches. `Resolver.dfy` is the resolver: a class whose methods
are the program's, talking to a network that is an arbitrary function of the step it
is asked at. `Outcomes.dfy` states what a resolution promises, and the contract of
`ResolveRR` is that promise, for every network, clock, cache state and query, through
its recursion: for an answer, what was received that it ends in and what was verified;
for each kind of failure, what was received, refused (`Refusals.dfy`), or asked for and
not received. The contract of `Round` is the converse: what each kind of reply leads to.
Only the messages received and the signatures checked between the
query's first step and its last count for it, and for cached keys and delegations
those before its end: both are spans of steps, and `Spans.dfy` proves that what was so
over a span stays so over a wider one. The `decreases` clause is the lexicographic
measure: server lookups left, CNAMEs left, rounds left; it does not use the referral
limit.

`World.dfy` and `Answers.dfy` join the layers, for zones signed either way: what each
promise says of the zones, down to what the lookup of a name gives, if the zone whose
keys did the signing signs only what it holds; no other zone is assumed honest.
`Holders.dfy` derives that honesty from keys nobody else can sign with.
`WalkExamples.dfy` gives inputs on which the walk promises less than one would expect,
and `Replay.dfy` a whole one: a zone, its honest keys, the messages and the run.

**Middleware.** `ResponseCache.dfy`, `Singleflight.dfy` and `RateLimit.dfy`, with the
recency list both caches share in `Recency.dfy`.

The methods follow the program's loops and updates and are proved against functions;
the lemmas are about those functions and about the invariants the methods keep. A
predicate written as "for every k with Opened(door, k)" means its body; the form
keeps the solver from looking inside where a proof does not ask it to.

## Where the code does less than it says

For each: an input, as a lemma, and exactly when the code does what it says.

- `ProveNoDS` accepts a covering record without asking whether it belongs to a
  delegation above the name (dnssec/denial.go:106-110), and an opt-out gap without a
  closest encloser (dnssec/nsec3.go:169-174). A name below a signed delegation of the
  zone then counts as unsigned, and so does a signed zone that a referral reaches past
  that cut (resolver/resolver.go:417-431):
  `DenialExamples.SignedChildDenied`, `Nsec3Examples.SignedChildDenied3`. With NSEC the
  zone's lookup of the DS is a referral exactly in the case `DenialProofs.NoDSSound`
  gives. With NSEC3 the missing guard is to look for the closest encloser: where the
  records show it, the name is below a signed delegation exactly if the encloser's
  record lists NS and DS without SOA, `Nsec3Proofs.NoDSSound`. `World.UnsignedIsTrue`
  has both.
- `ProveNoDS` does not ask that the matching record list NS, as its comment has it
  (dnssec/denial.go:77-79): an ordinary name of a signed zone passes for an unsigned
  delegation. `DenialExamples.NoDelegationNeeded`; it is one exactly if the record
  does list NS, by the same lemmas.
- `ProveNameError` (dnssec/denial.go:113-140) accepts a covered empty non-terminal,
  which exists, and a name below a delegation: `DenialExamples.EmptyNonTerminalDenied`,
  `DenialExamples.BelowDelegationDenied`.
  `DenialProofs.NameErrorSound` says exactly which of the three a success means.
- The wildcard branch of `ProveNoData` (dnssec/denial.go:181-190,
  dnssec/nsec3.go:238-250) looks at the query type only: a wildcard that is an alias
  passes, `DenialExamples.WildcardAliasDenied`. `DenialProofs.NoDataSound` says exactly
  when.
- `ProveNoCloserMatch` (dnssec/denial.go:195-215) does not ask which wildcard answered:
  one above the closest encloser passes, `DenialExamples.WildcardTooHigh`. The answer
  is the lookup's exactly if the encloser has as many labels as were signed,
  `DenialProofs.NoCloserSound` and `Answers.ExpansionIsTrue`.
- `ProveNameError` over NSEC3 (dnssec/nsec3.go:185-205) does not look at opt-out, nor at
  the encloser's record: `Nsec3Examples.DelegationDenied`. A success means that nothing
  is found, `Nsec3Proofs.NameErrorLookup`: the lookup is a referral if the encloser's
  record lists NS without SOA, and is none if it does not and the names from there down
  are covered by records that do not opt out; between an empty answer and a name error
  the records cannot tell, as a name that is no owner can still be above one left out
  elsewhere, `Nsec3Examples.EmptyNonTerminalLeftOut`.
- The label count of a denial record's signature is not compared with its owner
  (resolver/validate.go:493-515): the record of a wildcard, shown under another name,
  denies what that name holds, `DenialExamples.WildcardRecordElsewhere`. A verified
  record is of the zone's chain under the name it is shown with exactly if it was
  signed under that name, `World.ShownExact`.
- The signer's name is compared with the owner (dnssec/verify.go:75-79) and never with
  the zone whose keys are used (resolver/validate.go:415-462), so any zone can sign
  for any name that comes later in an answer for one of its own:
  `WalkExamples.VouchesForAny`; a response with both signatures in it, which the check
  of the answer accepts, `WalkExamples.ForeignAnswerSecure` and
  `WalkExamples.ForeignAnswerAccepted`. The missing guard decides it: in the name of a
  signer a zone's key can vouch for no owner outside the zone exactly if the signer is
  inside, `WalkExamples.SignerDecides`, and with the guard every owner is,
  `Answers.SignerInside`. Without it that holds of the records that came on the walk
  for their own owner, `Answers.OwnerEnclosed`.
- A name error at the end of an alias is returned before the alias is looked at
  (resolver/resolver.go:386-394), against resolver/resolver.go:322-324: with one unsigned
  CNAME a name error is the outcome for any name, `WalkExamples.ForgedAlias`; and with
  a signed one, made for a wildcard and shown under a name that has an address,
  `Replay.ReplayedWildcard`. The error speaks of the name asked for if there is no
  alias, or if each was verified on the walk for its own name and, if signed for a
  wildcard, the proof finds the closest encloser as deep as was signed: each is then
  what the lookup of its name gives, `Answers.ErrorIsTrue`. With the proof at hand that
  depth is exactly what decides, `Answers.ExpansionIsTrue`; and an alias no trusted key
  of a zone signed is missing in some world in which the same zones are honest,
  `Answers.UnsignedAlias`.
- A zone counts as unsigned, its algorithms not being checked (resolver/validate.go:253-257),
  exactly if no digest that can be checked fits a key with a valid signature over the
  set, and some digest that names a key is of an unknown kind, or fits a key whose
  signature is there and cannot be checked: `WalkExamples.UncheckedExact`. So one
  unknown digest excuses a zone whose other digest does not match,
  `WalkExamples.OneUnknownDigest`, and taking one signature out of the reply of a zone
  that is also signed with an algorithm that cannot be checked makes it count as
  unsigned, `WalkExamples.StrippedSignature`.
- The writer takes a dotted length of 255 (dnsmsg/encode.go:29), the reader refuses
  it (dnsmsg/decode.go:109-112): `Codec.LongestNameNotRead`, and `Codec.NameDecodes`
  has the exact bound.
- A response stored under query type 0 answers for every name below
  (middleware/cache/cache.go:149-176): `ResponseCache.TypeZeroAnswersBelow`, and
  `ResponseCache.AnyKept` says when that happens.
- A burst below one (middleware/ratelimit/ratelimit.go:50-60) is accepted, and breaks
  the bound with the first query: `RateLimit.FirstAlwaysPasses`.

When no trust anchor's algorithm can be checked, `rootState`
(resolver/validate.go:105-111) is secure without keys. Nothing then verifies: a walk
that begins so ends in a failure (`Resolver.Resolver.WalkFrom`), not in an unvalidated
answer.

## Model

| member | source | states |
|---|---|---|
| Names.CompareNames | dnssec/denial.go:273-291 | the scan from the last label is the canonical order of the lowercased names |
| Names.TotalOrder | dnssec/denial.go:268-291 | the order is total and transitive, and equality in it is equality up to ASCII case |
| Names.SubtreeInterval | dnssec/denial.go:246-257 | every subtree is an interval of the canonical order |
| Names.SharedExact | dnssec/denial.go:293-308 | the labels two names share at the top are exactly their common ancestors |
| Names.FindCommonSuffix | dnssec/denial.go:295-308 | the loop finds the deepest common ancestor |
| Dotted.SplitJoin | dnssec/verify.go:440-446 | splitting a dotted name gives back the labels it was joined from |
| Dotted.TextEqualIsEqualName | resolver/resolver.go:789-792 | equality of dotted text is equality of labels up to case |
| Dotted.TextSubdomainIsSubdomain | resolver/resolver.go:801-815 | the suffix test on text is the ancestor test on whole labels |
| Gaps.GapEncloser | dnssec/denial.go:250-257 | in a gap, wrap-around included, the deepest existing ancestor of a name is the longer of what it shares with the two ends |
| Gaps.GapNonTerminal | dnssec/denial.go:176-182 | a name in a gap exists, as an empty non-terminal, exactly if the end of the gap is below it |
| Gaps.PredecessorGap | dnssec/denial.go:232-244 | a name a zone does not own lies in the gap of the last owner before it |
| Denial.ScanCovers | dnssec/denial.go:237-244 | the three comparisons decide whether a name is strictly inside a cyclic gap |
| Denial.CollectDenial | dnssec/denial.go:52-72 | a section is read as NSEC if it has any NSEC, otherwise as NSEC3 |
| Denial.ProveNoDS | dnssec/denial.go:83-111 | the loop computes the verdict whose meaning NoDSSound and NoDSExact give |
| Denial.ProveNameError | dnssec/denial.go:121-140 | the loop computes the verdict whose meaning NameErrorSound and NameErrorExact give |
| Denial.ProveNoData | dnssec/denial.go:144-193 | the loop computes the verdict whose meaning NoDataSound and NoDataComplete give |
| Denial.ProveNoCloserMatch | dnssec/denial.go:203-215 | the loop computes the verdict whose meaning NoCloserSound and NoCloserExact give |
| DenialProofs.ClosestEncloserRight | dnssec/denial.go:246-257 | for a covered name, the computed closest encloser is the deepest ancestor with an owner at or below it |
| DenialProofs.CoveredNonTerminal | dnssec/denial.go:176-182 | a covered name is an empty non-terminal if and only if the record's next name is properly below it |
| DenialProofs.CoveredBelowCut | dnssec/denial.go:121-140 | a covered name is below a delegation if and only if the covering record belongs to a delegation above it |
| DenialProofs.NameErrorSound | dnssec/denial.go:113-140 | on any authentic records a success means neither the name nor the wildcard at its true closest encloser owns records, and fixes the lookup: referral, empty answer or name error |
| DenialProofs.NameErrorExact | dnssec/denial.go:121-140 | given the whole chain, the proof succeeds exactly if neither is an owner |
| DenialProofs.NoDataSound | dnssec/denial.go:144-193 | a success means the lookup is an empty answer, or an alias at a wildcard that has one |
| DenialProofs.NoDataComplete | dnssec/denial.go:144-193 | given the whole chain, exactly which empty answers can be proved |
| DenialProofs.NoDSSound | dnssec/denial.go:74-111 | a success means the zone is not the child itself and holds no DS at the cut; its lookup is a referral exactly if only a record of a delegation above the name was shown, and there is a delegation exactly if a record of the name lists NS |
| DenialProofs.NoDSExact | dnssec/denial.go:83-111 | given the whole chain, the proof succeeds exactly if the zone holds no DS and the name is not the apex; so it does for every name below one of its delegations, where the lookup is a referral |
| DenialProofs.NoCloserSound | dnssec/denial.go:195-215 | the name owns nothing, and the wildcard is the one the lookup answers from exactly if the computed closest encloser has as many labels as were signed |
| DenialProofs.NoCloserExact | dnssec/denial.go:195-215 | given the whole chain the proof succeeds exactly for the names that own nothing |
| DenialExamples.EmptyNonTerminalDenied | dnssec/denial.go:121-140 | a zone whose own records prove a name error for a name that exists as an empty non-terminal |
| DenialExamples.BelowDelegationDenied | dnssec/denial.go:121-140 | a zone whose own record of a delegation proves a name error for a name below it |
| DenialExamples.WildcardAliasDenied | dnssec/denial.go:183-190 | a zone whose own records prove no data where the lookup finds an alias |
| DenialExamples.SignedChildDenied | dnssec/denial.go:106-110 | a record of a signed delegation proves that a name below it has no DS |
| DenialExamples.NoDelegationNeeded | dnssec/denial.go:94-104 | a record of a name with an address proves that it is an unsigned delegation |
| DenialExamples.WildcardRecordElsewhere | resolver/validate.go:493-515 | a wildcard's own record, shown under another name, denies the address that name has |
| DenialExamples.WildcardTooHigh | dnssec/denial.go:203-215 | an answer from a wildcard is proven to be entitled to a name whose lookup is a name error |
| Nsec3.ComputeHashName | dnssec/nsec3.go:72-88 | the loop computes the hash that HashIsLastDigest is about |
| Nsec3Proofs.HashIsLastDigest | dnssec/nsec3.go:72-88 | a name's hash is the text of the last of iterations + 1 digests, the first over the canonical name with the salt appended, each next one over the one before with the salt appended; refused for another algorithm than 1 and for more than 100 iterations; a zone's own hashes are defined apart from the checker |
| Nsec3Examples.SaltedMatch | dnssec/nsec3.go:82-87 | a record with a salt and one iteration, at the query's own name, is found and proves what it lists |
| Nsec3.OwnerCase | dnssec/nsec3.go:275-301 | the case of an owner name is forgotten, and nothing else |
| Nsec3.ScanMatch | dnssec/nsec3.go:91-102 | the first record whose owner is the hash of the name |
| Nsec3.SearchEncloser | dnssec/nsec3.go:126-147 | the deepest proper ancestor, down to the zone, that some record matches, with the name one label longer |
| Nsec3.CollectNsec3Records | dnssec/nsec3.go:275-301 | the records of a section if they share one zone and one set of parameters |
| Nsec3.OneHashForAll | dnssec/nsec3.go:271-306 | on what is collected, a name's hash does not depend on which record hashes it |
| Nsec3Proofs.NameErrorSound | dnssec/nsec3.go:185-205 | the encloser found has a record, the name and the wildcard have none, and only unsigned delegations can own anything there |
| Nsec3Proofs.NameErrorLookup | dnssec/nsec3.go:185-205 | what the lookup can still be: nothing is found; a referral if the record of the encloser found lists NS without SOA, and none if it does not and every name from there down is covered without opt-out; if neither next closer name nor wildcard exists, that or a name error |
| Nsec3Proofs.NameErrorNoOwner | dnssec/nsec3.go:185-205 | a covered name is no owner unless the record covering it opts out |
| Nsec3Exact.ExistingHashed | dnssec/nsec3.go:149-153 | a chain that opts out nowhere leaves out no owner and no empty non-terminal |
| Nsec3Exact.NameErrorExact | dnssec/nsec3.go:185-205 | given the whole chain of a zone that does not opt out, the proof succeeds exactly if neither exists |
| Nsec3Proofs.NoDataSound | dnssec/nsec3.go:208-251 | a name with a record has an empty answer; at any other only unsigned delegations sit |
| Nsec3Proofs.NoDataLookup | dnssec/nsec3.go:208-251 | for a name without a record: no data is found, except at a wildcard that holds a DS when the proof rests on opt-out; resting on the wildcard, the lookup is an alias only if the wildcard's record lists one, and exactly then if the next closer name does not exist; referrals as for name errors |
| Nsec3Exact.NoDataExact | dnssec/nsec3.go:208-251 | given the whole chain, exactly which empty answers are proved |
| Nsec3Proofs.NoDSSound | dnssec/nsec3.go:149-180 | no DS sits at the cut; shown a record of the name itself the zone answers for it, and it is a delegation exactly if the record lists NS; shown an opt-out gap only, with the closest encloser and next closer name in the records, the name is below a signed delegation exactly if the encloser's record lists NS and DS without SOA, and the lookup is a referral if it lists NS without SOA, and only then if every name between is covered without opt-out |
| Nsec3Exact.NoDSExact | dnssec/nsec3.go:154-180 | given the whole chain of a zone that does not opt out, the proof succeeds exactly for the names that exist below the apex without a DS |
| Nsec3Proofs.NoCloserSound | dnssec/nsec3.go:256-269 | the name has no record of its own; a wildcard the zone owns is the one the lookup answers from exactly if the encloser found has as many labels as were signed and the next closer name does not exist, which it can only above delegations left out |
| Nsec3Proofs.ReferralDecided | dnssec/nsec3.go:126-147 | what the encloser found says of delegations above the name: the one signed delegation there can be is the encloser, exactly if its record lists NS and DS without SOA |
| Nsec3Exact.NoCloserExact | dnssec/nsec3.go:256-269 | given the whole chain, the proof succeeds exactly for the names that do not exist |
| Nsec3Examples.DelegationDenied | dnssec/nsec3.go:185-205 | one opt-out record proves a name error for an unsigned delegation |
| Nsec3Examples.EmptyNonTerminalLeftOut | dnssec/nsec3.go:185-205 | no record shown opts out, and the name denied exists |
| Nsec3Examples.SignedChildDenied3 | dnssec/nsec3.go:169-174 | an opt-out gap proves that a name below a signed delegation has no DS, and the record of its closest encloser, which is not looked at, tells |
| Messages.ScanBitmap | dnsmsg/dnssec.go:283-300 | the loop over windows decides whether a type is listed |
| Messages.BitmapRoundTrip | dnsmsg/dnssec.go:283-300 | on every well-formed bitmap the reader sees exactly the types encoded |
| Messages.ReadUncompressedName | dnsmsg/dnssec.go:170-196 | the name at the front of RDATA and where it ends, or failure |
| Encode.Encoder.WriteName | dnsmsg/encode.go:27-67 | writes exactly the names that fit: the longest suffix in the table becomes a pointer, and if none is there the name is spelled out and each of its suffixes a pointer can reach is in the table from then on, where it is spelled; the table invariant is kept |
| Encode.Encoder.WriteFull | dnsmsg/encode.go:45-66 | the name in full; every suffix recorded is spelled, without pointers, at its offset, and all are recorded that are new and that a pointer can reach |
| Encode.TablePatched | dnsmsg/encode.go:85-131 | filling in RDLENGTH disturbs no entry of the table |
| Encode.RRCompleted | dnsmsg/encode.go:77-132 | once RDLENGTH is filled in the record is complete, and everything before the field is as it was |
| Encode.Encoder.WriteRR | dnsmsg/encode.go:77-132 | writes exactly the records that can be written, with the length of the RDATA that follows, and keeps the invariant |
| Decode.Decoder.ReadName | dnsmsg/decode.go:66-142 | the loop reads the name at the cursor, follows at most twenty pointers, and leaves the cursor after the name's own octets |
| Decode.NameAt | dnsmsg/decode.go:66-142 | reading a name strictly advances and stays within the buffer |
| Decode.Decoder.ReadRR | dnsmsg/decode.go:268-377 | reads the record at the cursor, or fails if its RDATA is not as long as it says |
| Decode.Unpack | dnsmsg/message.go:210-239 | reads exactly the message in the buffer, and fails if there is none |
| Codec.NameDecodes | dnsmsg/decode.go:66-142 | a name the writer wrote reads back, up to case, if its dotted length is at most 254, and is refused if it is more |
| Codec.LongestNameNotRead | dnsmsg/encode.go:27-31 | a name of 255 octets that the writer takes and every reader refuses |
| Codec.WrittenDecodes | dnsmsg/decode.go:84-98 | what the writer wrote needs at most one jump, and the reader stops where the writer did |
| Codec.RRDecodes | dnsmsg/decode.go:268-377 | a record the writer wrote reads back the same |
| Codec.Pack | dnsmsg/message.go:147-207 | succeeds exactly on messages that can be written, and what it writes unpacks to the same message up to case, four-bit fields, counts and lengths |
| Codec.FlagsRoundTrip | dnsmsg/message.go:147-187 | the flag octets give back every header field |
| WireExamples.FlagBits | dnsmsg/message.go:147-187 | the two flag octets are the sum of the bits the RFCs give each field |
| WireExamples.PointerLimit | dnsmsg/decode.go:84-98 | a name is read through twenty compression pointers and not through more |
| WireExamples.ResponseReads | dnsmsg/message.go:210-239 | sixty-three octets with three compressed names, and the message they are |
| Reencode.NameFromFits | dnsmsg/decode.go:100-141 | every name read has dot-free labels of 1 to 63 octets within the length limit |
| Reencode.UnpackedFits | dnsmsg/decode.go:268-377 | every message the reader accepts can be packed, with expanded PTR and MX RDATA, and survives the trip |
| Reencode.Repack | dnsmsg/message.go:147-239 | unpacking any octets and packing the result never fails after the first step, and gives the same header and sections |
| Canonical.BuildCanonicalName | dnssec/verify.go:262-278 | the loop builds the lowercased wire form, or fails on a label that does not fit |
| Signing.LowercaseWireName | dnssec/verify.go:242-259 | lowercases a copy in place, label by label, and fails on malformed octets |
| Signing.BuildSignedData | dnssec/verify.go:117-166 | the collecting, sorting and skipping loops produce the octets SignedDataExact is about |
| Signing.CheckRRSet | dnssec/verify.go:57-91 | the checks before a signature is tried, in full, and the verdict ValidExact is about |
| Signing.ComputeKeyTag | dnsmsg/dnssec.go:238-250 | the 32-bit sum folded to 16 bits |
| SigningProofs.KeyTagExact | dnsmsg/dnssec.go:234-250 | on RDATA a record can hold the accumulator never wraps: the tag is the sum of 16-bit words with the carries folded in |
| SigningProofs.TagsCollide | dnsmsg/dnssec.go:234-237 | keys whose RDATA has the same words in another order share a tag |
| SigningProofs.LowerWireIsName | dnssec/verify.go:240-259 | lowercasing wire octets is lowercasing the name they spell, and fails on the same octets the name reader fails on |
| SigningProofs.WireKeepsCanonical | dnssec/verify.go:182-238 | a record recompressed and recased on the wire has the same canonical RDATA |
| SigningProofs.OneListing | dnssec/verify.go:139-157 | a set of octet strings has one strictly ascending listing |
| SigningProofs.SignedDataCanonical | dnssec/verify.go:113-166 | reordering or repeating records, or changing case or TTLs, leaves the signed octets unchanged |
| SigningProofs.ShuffledSame | dnssec/verify.go:139-157 | two lists that hold the same records, in any order and number, are the same set |
| SigningProofs.SignedDataBinds | dnssec/verify.go:113-180 | equal signed octets come from equal RRSIG fields, signer, owner as signed, and set of canonical RDATA |
| SigningProofs.VerdictCanonical | dnssec/verify.go:57-91 | the verdict on a signature does not depend on order, repetition, case or TTLs |
| SigningProofs.SerialIsTime | dnssec/verify.go:107-111 | on times less than 2^31 seconds apart the circular comparison is the comparison of the times |
| SigningProofs.PeriodIsExact | dnssec/verify.go:93-105 | a signature is accepted exactly within its period, across the 32-bit wrap |
| SigningProofs.VerifiedWasSigned | dnssec/verify.go:52-91 | under an unforgeable key, whatever verifies has an owner, type and contents the holder signed |
| SignedLayout.SignedDataExact | dnssec/verify.go:113-180 | octets are those signed for a set if and only if they read as the RRSIG's fields with the lowercased signer, followed for each canonical RDATA of the set, in ascending order and once, by the lowercased owner as signed, the type covered, class IN, the original TTL, the length and the RDATA, and nothing more |
| SignedLayout.RDataExact | dnssec/verify.go:182-238 | canonical RDATA, type by type: addresses, whole lowercased names, SOA numbers and MX preferences, and anything else as it is |
| SignedLayout.ValidExact | dnssec/verify.go:57-91 | a signature is valid exactly if the set, key, signer and period fit, the algorithm is one of five, and it verifies over octets that read as the set; unsupported exactly if the algorithm is another |
| SignedLayout.DSExact | dnssec/verify.go:398-432 | a DS matches exactly if tag and algorithm agree and its digest, of one of two kinds, is that of octets that read as the owner's name and the key |
| SignedLayout.CarriedExact | dnsmsg/dnssec.go:84-166 | which octets of RDATA are read as which DNSKEY, DS, RRSIG, NSEC and NSEC3 |
| Aliases.FollowAliases | resolver/resolver.go:347-376 | the loop follows the CNAMEs of one response and collects what is at their end |
| Aliases.ChaseIsChain | resolver/resolver.go:347-376 | what was followed is a chain from the name asked for, of bounded length, ending at the answers |
| Aliases.NoLoop | resolver/resolver.go:347-376 | a chain followed to its end meets no name twice |
| Aliases.LoopFails | resolver/resolver.go:371-373 | a CNAME loop within one response always ends in an error |
| Aliases.TooLongExact | resolver/resolver.go:371-373 | the chain error comes exactly if the response leads fifteen CNAMEs from the name first asked for, earlier responses counted |
| Delegations.SearchIsDeepest | resolver/delegationcache.go:65-91 | a search finds the deepest live ancestor-or-self, and drops only what has expired |
| Delegations.KeyCache.Get | resolver/validate.go:77-88 | a key set is returned exactly while it has not expired |
| Delegations.KeyCache.Put | resolver/validate.go:90-101 | a non-empty key set is kept for its TTL clamped to a minute and a week |
| Delegations.DelegationCache.ClosestEnclosing | resolver/delegationcache.go:65-91 | the loop computes that search, and map and list stay in bijection |
| Delegations.DelegationCache.Put | resolver/delegationcache.go:96-125 | the entry is added in front and the least recently used goes, within capacity |
| Delegations.DelegationCache.Forget | resolver/delegationcache.go:130-142 | exactly that zone's entry goes |
| Recency.OnlyOldestGoes | resolver/delegationcache.go:117-124 | what an insertion pushes out is the entry used longest ago, only when a full table gains a key |
| Recency.AddThenEvict | middleware/cache/cache.go:181-206 | a new entry survives its own insertion, within capacity, and nothing else changes value |
| Trust.VouchedIsTrusted | resolver/validate.go:204-264 | a key set that a trusted parent's digest vouches for and that is signed by the key it names extends the chain of trust |
| Trust.NoKeysNoDecision | resolver/validate.go:474-515 | without keys no denial is ever accepted |
| Resolver.Resolver.VerifySet | resolver/validate.go:274-304 | a signature of the section is accepted only if it verifies under one of the keys at a reading of the clock; none only if every one was refused under every key; unsupported only if one the section holds is; each exactly then while the clock stands still |
| Resolver.Resolver.VerifiedNSECs | resolver/validate.go:493-515 | exactly the denial records of the section that are in a set the section holds with a valid signature by those keys: every one dropped is in a set whose signatures were all refused |
| Resolver.Resolver.CheckDenial | resolver/validate.go:474-486 | which of proved, unknown and refuted is decided over all the section's denial records that carry a valid signature: by a proof, a form that cannot be checked, or records that prove nothing; with no keys it is refuted |
| Resolver.Resolver.ZoneKeys | resolver/validate.go:208-264 | keys are returned from the cache exactly if live there; keys returned or cached are the zone's own by a chain from an anchor whose every message was received by now, and are cached for the least TTL of the set; no keys means that in a reply received by now to this question one of the digests, or the signature of a key it matches, could not be checked; a failure, that no server asked since the query came in answered, or that a reply did in which every key is refused under every digest; while the clock stands still, which of keys, no keys and failure it is |
| Resolver.Resolver.EnterZone | resolver/validate.go:165-202 | below a cut the state is secure with keys reached through the DS set this section holds signed; or insecure, if it holds none, with the proof in this section that the parent holds no DS, and if it does, with a signed set and a received key set that cannot be checked; a failure, if it holds none, means that no proof is there, and if it does, that its signatures were all refused or the keys could not be had |
| Resolver.Resolver.DescendTo | resolver/validate.go:133-146 | the same, one cut at a time, down to the zone that signed the answer: trusted keys of it, or a cut on the way that a section received by now ended, or a cut at which the chain of trust breaks |
| Resolver.Resolver.CrossDelegation | resolver/validate.go:117-122 | security is carried across a referral by its own section, as EnterZone says; once ended it stays ended; a failure means that the chain of trust breaks there; without keys nothing is crossed |
| Resolver.Resolver.StartingSecurity | resolver/validate.go:396-409 | a start is secure only with the cached keys of that zone, exactly if they are live, and always secure at the root when validating, unless its keys could not be had |
| Resolver.Resolver.Begin | resolver/resolver.go:236-252 | the walk begins at the deepest live cached zone, or at the root if there is none, or if that zone was reached securely and no keys of it are cached |
| Resolver.Resolver.ValidateAnswer | resolver/validate.go:415-462 | true means every record is in a set with a signature this response holds, by the walk's keys, wildcards with the proof this response gives; false that this is so up to a record whose signature, held by this response, or whose proof cannot be checked; a failure that it is so up to a record whose set has only invalid signatures, or a wildcard's without its proof; while the clock stands still, sets signed under their own names are accepted |
| Resolution.SignerBelow | resolver/validate.go:316-333 | a signer named in the response, below the zone and above the name, as deep as any; none only if there is no such signer |
| Referrals.ScanReferral | resolver/resolver.go:414-435 | the loop finds the referral that ReferralMeans is about, with its TTL |
| Referrals.ReferralMeans | resolver/resolver.go:403-435 | a referral leads strictly below the zone, to the first zone delegated that encloses the name, with exactly the servers named for it, and there is none only if no record delegates |
| Referrals.ReferralTTL | resolver/resolver.go:432-434 | its TTL is one of its records', and the least of them unless one is zero |
| Referrals.SOAIsFirst | resolver/resolver.go:51-72 | the SOA passed on is the first of the authority section, and none only if there is none |
| Referrals.GlueMeans | resolver/resolver.go:461-486 | glue is taken exactly for delegated servers inside the responding zone, at addresses that may be asked |
| Resolver.Resolver.FindServers | resolver/resolver.go:472-509 | the glue if there is any, otherwise the addresses in an answer about one of the servers named, from lookups at most six deep, and none only if each of them failed or gave none that may be asked; only addresses that may be asked |
| Resolver.Resolver.Refer | resolver/resolver.go:461-528 | a referral leads to its zone with the servers found; it fails only without glue, or if the chain of trust breaks at the zone; the delegation is remembered, most recent, with its servers, TTL and security, unless the query asked not to be validated |
| Resolver.Resolver.QueryServers | resolver/resolver.go:564-595 | the servers that may be asked are asked in turn, until one answers; there is no answer only if none did |
| Resolver.Resolver.Ask | resolver/resolver.go:266-276 | the server is asked one label below its zone exactly while minimizing, and the whole name otherwise |
| Resolver.FewerFromRoot | resolver/resolver.go:285-295 | going back to the root from a dead cached delegation leaves fewer rounds to go |
| Resolver.FewerBelow | resolver/resolver.go:525-528 | so does every referral, with minimization switched on again |
| Resolver.Resolver.Round | resolver/resolver.go:258-529 | a round ends the walk with an outcome that keeps its promise, or leaves the invariant and fewer rounds to go; and for each reply, what it comes to: with response code 3 a name error with the first SOA, with any other code but 0 a failure, with records of the type the chain and exactly those, with an alias alone the outcome for its end with the chain in front, with neither the zone referred to or else no data with the first SOA, and with no reply the next thing to ask; only a validating resolution may refuse a response, and only one is secure; without keys it fails or goes on without keys |
| Resolver.Resolver.WalkFrom | resolver/resolver.go:258-529 | from any start at most thirty rounds end in a promised outcome, and from a start without keys in a failure; a query already given up is not asked |
| Resolver.Resolver.AliasOutcome | resolver/resolver.go:383-401 | if the end of an alias fails, its error is the outcome whatever the alias is; otherwise both parts decide |
| Resolver.Resolver.Resolve | resolver/resolver.go:229-530 | for every network: it ends; secure means every record verified and an empty end proved; not secure means an excuse; the answer is a chain a stub can follow, every record of it was received in answer to a question about a name on the way, and it ends in all the records of the type that one message without error holds at the target, or in none because a message about the target holds neither those nor an alias; each failure is about a name such a chain leads to, and rests on what was received about it (a name error on response code 3, validated or excused), on what was refused, on servers that did not answer, or on a name of 15 labels or more; every cached key set stays trusted and every cached delegation justified; all by what happened since the step given, and by now for what is cached |
| Resolver.Resolver.ResolveRR | resolver/resolver.go:220-227 | so for one query, whose messages and checks are those between its first step and its last |
| Outcomes.SecureAfter | resolver/resolver.go:386-401 | a verified chain in front of a secure answer is a secure answer |
| Outcomes.ExcusedAfter | resolver/resolver.go:386-401 | what excuses the end of a chain excuses the whole |
| Outcomes.GivenAfter | resolver/resolver.go:386-401 | records received for a chain and for its end were received for the whole: none is made up |
| Outcomes.EndsAfter | resolver/resolver.go:378-401 | an answer with a chain in front ends as it did, in one message's records |
| Outcomes.FailsFurther | resolver/resolver.go:386-390 | a failure at the end of a chain is one, for the same reasons, of the name it starts from |
| World.NameErrorIsTrue | resolver/resolver.go:322-332 | for every zone, keys and records that can have settled a name error: the zone's lookup is a name error, or a referral or empty answer exactly where the records say so |
| World.NoDataIsTrue | resolver/resolver.go:442-459 | for every zone, keys and records that can have settled an empty answer: the zone's lookup is empty, or an alias at a wildcard |
| World.ShownExact | resolver/validate.go:493-515 | a verified NSEC is of the zone's chain under the name it is shown with exactly if it was signed under that name |
| World.HashesNotExpanded | resolver/validate.go:493-515 | as the text of no hash is a star, an NSEC3 is always shown under the name it was signed with |
| World.UnsignedHas | resolver/validate.go:165-179 | a cut that a proof ended is settled over records of a received section that its ancestor's trusted keys vouch for |
| World.UnsignedIsTrue | resolver/validate.go:165-179 | where a proof ended the chain of trust, the zone that gave it holds no DS; whether it is the parent, and whether there is a delegation, exactly as its records say |
| Answers.RecordIsTrue | resolver/validate.go:411-462 | a record verified with an honest zone's keys is held by it, data and all, inside the zone; signed under its own name, the lookup of that name gives it; signed for a wildcard, there is a proof, and every such proof decides whether it does |
| Answers.ExpansionIsTrue | resolver/validate.go:445-457 | a wildcard's record taken for a name is what the zone's lookup gives, from that wildcard, exactly if the encloser in evidence has as many labels as were signed |
| Answers.SecureIsTrue | resolver/resolver.go:191-195 | every record of a secure answer was verified with keys of a zone enclosing a name on the way, and if that zone is honest it is true as above; an empty end is empty in the zone that proved it |
| Answers.ErrorIsTrue | resolver/resolver.go:386-394 | a name error speaks of the name asked for if no alias led to it, or if every alias was verified on the walk for its own name in an honest zone, wildcards at the right depth: each is then what the lookup of its name gives; and for every link and every way it was verified, exactly when that is so |
| Answers.UnsignedAlias | resolver/resolver.go:386-394 | an alias that no trusted key of a zone signed, at its owner or a wildcard above, is missing from that zone in a world in which every zone honest before still is |
| Answers.OwnerEnclosed | resolver/validate.go:415-462 | a record that came on the walk for its own owner is vouched for by a zone that encloses it; all are, if there is no alias |
| Answers.SignerInside | dnssec/verify.go:75-79 | if the signer's name is inside the zone whose keys are used, so is every owner they vouch for |
| Holders.HonestHolder | dnssec/verify.go:52-91 | a zone whose keys nobody else can sign with, and whose holder signs only sets the zone holds, is honest: what verifies is what was signed |
| WalkExamples.VouchesForAny | dnssec/verify.go:75-79 | a zone key vouches for any record, wherever it comes with a signature in the name of any signer above its owner |
| WalkExamples.SignerDecides | dnssec/verify.go:75-79 | in the name of a signer a key can vouch for no owner outside a zone exactly if the signer is inside |
| WalkExamples.ForeignAnswerSecure | resolver/validate.go:415-462 | with both signatures in the response and valid, a secure answer that ends in an address the zone does not enclose is a promised outcome |
| WalkExamples.ForeignAnswerAccepted | resolver/validate.go:415-462 | the check of that answer says secure |
| WalkExamples.ForgedAlias | resolver/resolver.go:386-394 | after one unsigned CNAME, the name error of its target is a promised outcome for any name |
| WalkExamples.UncheckedExact | resolver/validate.go:231-258 | keys are accepted exactly if a checkable digest fits a key with a valid, checkable signature over the set; the zone counts as unsigned exactly if none does and a digest of an unknown kind names a key or a digest fits a key whose signature there cannot be checked |
| WalkExamples.OneUnknownDigest | resolver/validate.go:231-258 | one digest of an unknown kind excuses a zone whose checkable digest does not match |
| WalkExamples.StrippedSignature | resolver/validate.go:231-258 | taking one signature out of the reply of a zone signed with a checkable and an uncheckable algorithm turns its keys from accepted to unchecked |
| Replay.RootHonest | dnssec/verify.go:52-91 | there is a run whose root zone has trusted keys and is honest |
| Replay.ReplayedWildcard | resolver/resolver.go:386-394 | in that run a wildcard's alias, validly signed and shown under a name that has an address, makes a validated name error a promised outcome for that name |
| ResponseCache.FindSound | middleware/cache/cache.go:112-128 | what is found is the question's own entry or one for every type at or above the name |
| ResponseCache.KeysTell | middleware/cache/cache.go:225-227 | two questions share a key exactly if they ask for one name, up to case, and one type |
| ResponseCache.LookupSound | middleware/cache/cache.go:112-143 | a hit is a fresh copy of the latest response put for a question with an equal name and the same type, or for type 0 or a name error at or above the name; unexpired, with every TTL the whole seconds left, at least 1 |
| ResponseCache.PutIsFound | middleware/cache/cache.go:112-207 | what was just put is found, for the same question, as long as it lasts |
| ResponseCache.NegativeMeans | middleware/cache/cache.go:251-263 | a negative answer is kept for the lesser of its first SOA's TTL and minimum, and for the fallback without one |
| ResponseCache.KeptMeans | middleware/cache/cache.go:149-176 | how long each kind of response is kept, and which are not |
| ResponseCache.AnswerMeans | middleware/cache/cache.go:117-125 | a hit for another name or type than was put is a name error for an ancestor-or-self, as long as no other response was put with type 0 |
| ResponseCache.AnyKept | middleware/cache/cache.go:149-176 | putting a response keeps that so exactly unless it has type 0 and is not a name error |
| ResponseCache.TypeZeroAnswersBelow | middleware/cache/cache.go:149-176 | an address stored under type 0 that answers for a name below |
| ResponseCache.LeastIsLeast | middleware/cache/cache.go:241-249 | the TTL taken is one of the records', and none is smaller |
| ResponseCache.Store.Lookup | middleware/cache/cache.go:112-143 | the lookup of the table, with its effect on entries and recency, and every hit explained by the question it was put for |
| ResponseCache.Store.Put | middleware/cache/cache.go:149-207 | what is cached for which question and how long, what makes room, and that every entry stays the latest put of its question |
| Singleflight.OneQueryPerKey | middleware/singleflight/singleflight.go:55-63 | in every interleaving at most one inner query runs for a key |
| Singleflight.KeysTell | middleware/singleflight/singleflight.go:50-54 | queries share a key exactly if they ask for one name, up to case, and one type |
| Singleflight.ArrivalJoins | middleware/singleflight/singleflight.go:55-63 | a query waits exactly if one that asks alike is in flight, and leads otherwise |
| Singleflight.InFlightIsLive | middleware/singleflight/singleflight.go:55-78 | a call in the table has a leader at work and an open channel |
| Singleflight.DeletesOwn | middleware/singleflight/singleflight.go:70-76 | a leader's delete removes its own call and no other |
| Singleflight.ClosesOnce | middleware/singleflight/singleflight.go:70-76 | the channel is closed once, after the message is set |
| Singleflight.ClosedForGood | middleware/singleflight/singleflight.go:25-29 | a closed call never changes again, however the run goes on |
| Singleflight.WaitersAnswerAlike | middleware/singleflight/singleflight.go:83-103 | every waiter that answers sends the last message of a leader that asked for an equal name and the same type, once, with its own ID, RD and question |
| Singleflight.NoWaiterForgotten | middleware/singleflight/singleflight.go:83-88 | a waiter's call is closed, or its leader can still take the steps that close it |
| Singleflight.LeaderCloses | middleware/singleflight/singleflight.go:70-76 | its leader's own steps unregister the call, hand over what it wrote last, and close it |
| Singleflight.WokenAnswers | middleware/singleflight/singleflight.go:83-103 | a waiter that wakes answers exactly if its leader sent anything |
| RateLimit.Limiter.Allow | middleware/ratelimit/ratelimit.go:75-95 | one query's effect on the table and its verdict, which the bounds below are about from both sides |
| RateLimit.Limiter.EvictIfFull | middleware/ratelimit/ratelimit.go:100-112 | a full table gives up a client seen least recently, in whatever order it is scanned |
| RateLimit.TraceSound | middleware/ratelimit/ratelimit.go:75-112 | on a clock that does not go backwards, tokens stay within the burst and the table within its bound, over whole runs |
| RateLimit.WindowBound | middleware/ratelimit/ratelimit.go:75-95 | over any window a client that stays in the table is let through at most burst times plus the rate over its length, whatever the other clients do |
| RateLimit.RefusedOnlyIfSpent | middleware/ratelimit/ratelimit.go:75-95 | a client that stays in the table is refused only if one more would exceed, over a window that opens with one of its queries, burst plus the rate over its length, or what its entry held when the run began plus the rate since |
| RateLimit.IdlePasses | middleware/ratelimit/ratelimit.go:88-94 | a client that waited for one token's worth of time is let through |
| RateLimit.FirstAlwaysPasses | middleware/ratelimit/ratelimit.go:75-86 | the bound and the range of tokens hold from the first query exactly if the burst is at least one |

## Left out

- Answers.SecureIsTrue: the wildcard proofs and denials it rests on mean what they say for records shown under the name they were signed with, and NSEC3 for names the hash tells apart, as the other lemmas of World and Answers state; records of type NSEC and NSEC3 are only held, and an alias in an answer about RRSIG or NSEC too, as those types stand beside one.
- Resolver.Resolver.Resolve: one resolution at a time; other goroutines would change the caches between steps, through the same methods that keep every entry trusted or justified.
- Nsec3Proofs.NameErrorSound: assumes the hash has no collisions on the names involved, and that the text form of a hash keeps the order of the hashes (dnssec/nsec3.go:41-44).
- Codec.Pack: says nothing of messages whose sections or RDATA exceed 16 bits, which the program writes with counts cut to 16 bits.
- RateLimit.WindowBound: real arithmetic for the program's floating point, and a client that leaves the table starts afresh.
- Octets of 0x80 and above: lowercasing folds ASCII only, as the canonical forms do; the text comparisons of the standard library also fold other letters.
- Labels that contain a dot, which a next name or signer name in raw RDATA can carry, stay one label here and are split by the program's text form.
- RSA, ECDSA, Ed25519 and the digests: functions of the environment.
- Sockets, deadlines, EDNS and TCP fallback, query IDs, 0x20 case, server ordering by round-trip time: the network is a function that may answer anything or nothing.
- The handlers around the cache: which queries bypass it, and the ceiling on TTLs passed to the client; the store is modelled.
- Root priming and root hints: the root servers are given. Which addresses may be queried is a parameter.
- Trust-anchor files, configuration, access control, logging, the listeners and the commands.
- The mutexes of the caches: a locked method is one step. Only the query collapsing is modelled between its locks.
- Copying of records on the way in and out of caches: values are immutable here.
- DNAME, ANY queries, and a wildcard owner that is a delegation, in the reference lookup.
- Which error message a failed check carries; failures are told apart only where callers do.
