# A verified model of the voting protocol

A Dafny model of an anonymous authenticated ballot system: the registration office that signs
blinded keys, the ballot box that admits, counts and publishes, the RSA blind signatures between
them, the hash-chained registers both keep, the signed request document, the generator that fills a
whole election, and the outside verifier that recounts one. The model proves what each step keeps and
what follows over whole runs.

`dafny verify dfyconfig.toml` checks everything.

## How it is arranged

| files | what they model |
|---|---|
| `NumberTheory`, `Octets`, `PssEncoding`, `BlindSignature` | the blind-signature arithmetic, down to Fermat and the Chinese remainder |
| `Base64`, `Canonical`, `Statements` | encoding, canonical JSON, ballots and the nine signed statements |
| `Base64Reading`, `JsonReading` | what decoding makes of any text, and a JSON reader that gives back what was written |
| `HashChain`, `Ledger` | the append-only log and what its head binds |
| `Wire` | the exact bytes: records, signed statements, what is hashed for an entry, base64url |
| `BoxModel`, `BallotBox`, `BoxLaws` | the ballot box: its steps as functions, the class proved against them, and what the steps may and may not do |
| `OfficeModel`, `OfficeRecords`, `Office`, `OfficeLaws` | the registration office, likewise |
| `Desk`, `DeskLaws` | the office's endpoints, over the office object, likewise |
| `System` | office and box side by side, and the count audit |
| `Verifier`, `VerdictLaws`, `Recount` | the outside verifier, what its verdicts mean, and its agreement with the box and the office |
| `Pinning`, `PinningExample` | what a file that passes the verifier pins down, and an election in which all that is supposed of one holds |
| `Search`, `PdfRequest`, `PdfStructure`, `PdfPage`, `PdfReading`, `PdfRoundTrip`, `PdfExactness`, `PdfLaws` | the request document: writing, its structure, what its page states, reading, and when reading gives back what was written |
| `Voter` | the voter's steps, one voter's way through office and box, and what the replies on the office's file are |
| `GeneratorModel`, `Generator` | the election generator |
| `Scorer` | the exact binomial tail |

An object whose fields the program updates is a class here; its methods are proved equal to steps on
values, and the theorems are about those steps. The `Laws` files say what the steps must do in terms of what
goes in and what comes out, without the steps themselves: a step that took another branch would break a law.

## Assumptions

- SHA-256 and SHA-384 are parameters. Nothing is assumed of them but their output length. Where binding
  needs that the hash does not collide, the hypothesis names the inputs at hand and no others
  (`CollisionFree`, `NoCollision`, `NoCollisionFrom`, `HeadStandsOut`), so that it can hold of a real hash.
- Where a result needs that a signature is no forgery, it says so of that one signature (`Unforged`): if it
  verifies, it verifies over something the box signed in the run at hand.
- Ed25519 verification, the signature validator and `json.loads` are parameters; of the last it is supposed that it
  gives back what is written canonically, as the reader of `JsonReading` does (`JsonReadings.ReaderLoadsBodies`).
  RSASSA-PSS verification is written out from RFC 8017.
- A key pair is two distinct primes and exponents inverse to each other modulo the least common multiple of
  p - 1 and q - 1.
- Randomness (salt, blinding factor, opening, nonce, shuffles) and clock readings are arguments. The office's
  signing operation is an argument of the release as well, since what matters is what the office does when it
  raises or returns something faulty.
- The count audit takes from the token scheme that no more ad-hoc keys carry a valid token than blind
  signatures were handed out (`NoTokenTooMany`).
- A byte string is a string of characters below 256; text that is hashed or serialised is its UTF-8 bytes.
- Chain binding is stated for registers of at most 2^64 entries, beyond which the eight-byte index overflows.

## Where the code and its documentation part

- `README.md:235-244` of the repository describes an interval counted in ballots; the code counts seconds
  (`src/ovpoc/ballotbox.py:494-520`), and so does the model.
- `close()` may run twice, and without `open()`; `_catch_up` publishes before the opening act too. The model
  keeps both.
- `close()` promises that any boundary the clock has passed is filled in first (`src/ovpoc/ballotbox.py:294-297`),
  but it reads the clock twice, for catching up and for the closing act. A boundary that falls between the two
  readings is never published: `BoxModel.CloseCanMissBoundaries`. The series is complete exactly when none does:
  `BoxModel.CloseCompletesSeries`.
- `verify_chain` does not notice a dropped tail (`HashChains.PrefixIsChain`). The signed head does not cure that:
  the box signs its current head at every view while voting is open (`src/ovpoc/ballotbox.py:541-571`), so a file
  cut back to an earlier view passes `run_checks` (`Pinnings.TruncatedFilePasses`), although
  `docs/wire-contract.md:254-257` says that one signature authenticates every record. What a passing file does hold
  is `Pinnings.PassingFileIsABeginning`. It holds everything exactly when it has as many rows as the box's
  published closing count; a closing head says as much of a file that has records or the true genesis value
  (`Pinnings.PassingFileIsComplete`).
- The verifier counts voters by the text of their key, and base64 decoding lets two texts spell one key. A box that
  records one key under two texts is not refused; the voters are the keys exactly when no key is spelt in two ways
  (`VerdictLaws.VotersAreKeys`), and there are never more voters than released tokens either way.
- The verifier also reads the genesis value from the file it checks, so a file emptied of its records passes
  (`Pinnings.EmptiedFilePasses`); the closing count tells that one as well.
- `verify_release_answer` does not look at the length of the opening; the exact condition under which a
  disclosure names one voter is `OfficeRecords.AnswerNamesOneVoter`.
- `_pdf_text` leaves a carriage return unescaped; exactly when a literal string reads back is
  `PdfRequests.LiteralReadsBack`.

## Model

| member | source | states |
|---|---|---|
| `PssEncoding.Mgf1` | src/ovpoc/rsabssa.py:116-122 | the mask loop computes MGF1 (appendix B.2.1 of RFC 8017): octet i is octet i mod 48 of the hash of the seed followed by the four octets of i div 48 |
| `PssEncoding.EncodedOctets` | src/ovpoc/rsabssa.py:125-148 | the encoding octet by octet (section 9.1.1 of RFC 8017): trailer 0xbc, the hash of eight zeros, the message's hash and the salt, and before it zeros, a one and the salt under the mask of that hash, the surplus bits cleared |
| `PssEncoding.XorOctetBits` | src/ovpoc/rsabssa.py:141 | the masking is bitwise exclusive or |
| `PssEncoding.EncodingIsSmall` | src/ovpoc/rsabssa.py:125-148 | for every modulus size the length guard admits, the encoding has exactly em_len octets and, read as an integer, stays below 2^em_bits, so the `m_int >= n` branch of `blind` is never taken |
| `PssEncoding.EncodeThenDecode` | src/ovpoc/rsabssa.py:125-148 | every encoding is accepted by the decoding of section 9.1.2 of RFC 8017, for every number of cleared leading bits and with empty padding, and the salt comes back |
| `PssEncoding.DecodeThenEncode` | src/ovpoc/rsabssa.py:125-148 | and nothing else is accepted: an octet string that decodes is the encoding of that message with the recovered salt |
| `BlindSignature.BlindingSucceeds` | src/ovpoc/rsabssa.py:168-195 | blinding fails only for a modulus too small, or an encoding or a factor that shares a divisor with it; no `to_bytes` overflows |
| `BlindSignature.SignedValuesPassCheck` | src/ovpoc/rsabssa.py:198-246 | the office signs exactly the values of the right length below n, and every signature it makes, for a value coprime to n or not, passes the fault check |
| `BlindSignature.CheckAcceptsOnlyTheSignature` | src/ovpoc/rsabssa.py:220-246 | the fault check is exact: it passes the true blind signature and no other octets |
| `BlindSignature.BlindSignatureCorrect` | src/ovpoc/rsabssa.py:168-271 | sections 4.2 to 4.4 of RFC 9474: blinding, signing and finalising give exactly enc(m)^d mod n, whose e-th power is enc(m), and `finalize` accepts it |
| `BlindSignature.FinalizeAccepts` | src/ovpoc/rsabssa.py:249-271 | a reply unblinds exactly to the signatures it is the blinded form of: of the modulus's length, verifying, and congruent to the signature times the factor; the two refusals are told apart |
| `BlindSignature.VerifyAcceptsOnlySignatures` | src/ovpoc/rsabssa.py:274-291 | verification is exact: it accepts the octets of enc(m)^d mod n for some salt, and nothing else |
| `BlindSignature.PerfectBlindness` | src/ovpoc/rsabssa.py:185-195 | for every blinded value coprime to n and every message and salt whose encoding is, one factor and only one makes `blind` produce that value from that message |
| `BlindSignature.FactorUnique` | src/ovpoc/rsabssa.py:185-195 | two factors that blind one encoding into one value are the same factor |
| `NumberTheory.Fermat` | src/ovpoc/rsabssa.py:198-217 | Fermat's little theorem, from the binomial theorem and the divisibility of the binomial coefficients |
| `NumberTheory.ChineseRemainder` | src/ovpoc/rsabssa.py:198-217 | congruent modulo two distinct primes is congruent modulo their product |
| `NumberTheory.InvertibleIffCoprime` | src/ovpoc/rsabssa.py:185-192 | `pow(r, -1, n)` exists exactly for r coprime to n, and is then the inverse |
| `Base64.DecodeInvertsEncode` | src/ovpoc/messages.py:20-26 | `unb64(b64(x)) == x` through the library's lenient scanner, with the padding restored |
| `Base64.EncodedAlphabet` | src/ovpoc/messages.py:20-21 | encoded text stays inside the URL-safe alphabet, unpadded |
| `Base64Readings.LettersSpellBytes` | src/ovpoc/messages.py:24-26 | what decoding makes of any text of letters: refused exactly when one is left over, else three bytes to four letters, with only the bits past the last byte thrown away |
| `Base64Readings.LettersRead` | src/ovpoc/messages.py:24-26 | the letters decoding knows are those of RFC 4648, in both spellings of the last two |
| `Base64Readings.NoiseIsPassedOver` | src/ovpoc/messages.py:24-26 | characters outside the alphabet are passed over wherever they stand, in numbers that leave the padding as it is |
| `Wires.EncodedLetters` | src/ovpoc/messages.py:20-21 | as many characters as it takes six bits at a time, each the letter its six bits have in section 5 of RFC 4648 |
| `Canonical.CanonicalExact` | src/ovpoc/messages.py:29-46 | canonical bytes are equal exactly when the objects are: key order does not matter and nothing else is lost |
| `JsonReadings.CanonicalReadsBack` | src/ovpoc/messages.py:29-46 | canonical bytes are JSON for the object they were written from: a reader of RFC 8259 objects, defined on its own, gives the same members back, sorted |
| `JsonReadings.RecordReadsBack` | src/ovpoc/messages.py:125-142 | a ballot is had back from the bytes it is kept and hashed as |
| `JsonReadings.FromDictReads` | src/ovpoc/messages.py:134-142 | a ballot is read exactly from its five members, in any order and among any others |
| `Wires.CanonicalIsWritten` | src/ovpoc/messages.py:29-46 | the bytes themselves: the members in ascending order of their keys, between commas and braces, without white space |
| `Wires.BeforeIsPrecedes` | src/ovpoc/messages.py:29-46 | keys are ordered by code point |
| `Wires.DigitsAreDecimal` | src/ovpoc/messages.py:29-46 | numbers are decimal without leading zeros, and read as what they are |
| `Statements.FromDictInvertsToDict` | src/ovpoc/messages.py:125-142 | `from_dict` inverts `to_dict` |
| `Statements.RecordTextInjective` | src/ovpoc/messages.py:125-132 | different ballots make different records |
| `Wires.RecordIsWritten` | src/ovpoc/messages.py:125-132 | a record to the byte |
| `Wires.RejectedRecordIsWritten` | src/ovpoc/ballotbox.py:325-360 | a refused submission's record to the byte, with its reason |
| `Statements.StatementsSeparated` | src/ovpoc/ballotbox.py:86-147 | the texts under the nine kinds of signature (with `src/ovpoc/messages.py:63-65` and `117-122`, `src/ovpoc/vro.py:409-459`) are equal exactly when the statements are the same kind about the same things |
| `Wires.TokenRequestIsWritten` | src/ovpoc/messages.py:63-65 | the bytes a wallet signs, asking for a token |
| `Wires.VoteIsWritten` | src/ovpoc/messages.py:117-122 | the bytes an ad-hoc key signs, voting |
| `Wires.ReceiptIsWritten` | src/ovpoc/ballotbox.py:86-101 | the bytes the box signs over a submission |
| `Wires.PollPhaseIsWritten` | src/ovpoc/ballotbox.py:104-123 | the bytes the box signs over an act |
| `Wires.RegistryHeadIsWritten` | src/ovpoc/ballotbox.py:133-147 | the bytes the box signs over a head |
| `Wires.ReleaseQueryIsWritten` | src/ovpoc/vro.py:409-415 | the bytes a wallet signs, asking about a release |
| `Wires.DenialIsWritten` | src/ovpoc/vro.py:418-424 | the bytes the office signs, denying one |
| `Wires.ReleaseCountIsWritten` | src/ovpoc/vro.py:427-442 | the bytes the office signs over the number of releases |
| `Wires.ReleaseHeadIsWritten` | src/ovpoc/vro.py:445-459 | the bytes the office signs over the head of its register |
| `Statements.PayloadsSeparated` | src/ovpoc/vro.py:409-459 | so no signed payload of one statement is that of another, where the hash tells the two texts apart |
| `Ledgers.Ledger.Append` | src/ovpoc/ledger.py:50-60 | appending extends the chain by one entry linked to the head and disturbs no other |
| `Ledgers.Ledger.CurrentHead` | src/ovpoc/ledger.py:62-64 | the head is the hash over the whole list of records, the genesis value for none |
| `Wires.EntryIsLaidOut` | src/ovpoc/ledger.py:40-43 | what is hashed for an entry: eight octets of the index, big-endian, the previous hash, the canonical text |
| `Wires.FirstLinksToZeros` | src/ovpoc/ledger.py:25-70 | the first entry has index 0 and links to 32 zero octets, the head of an empty log |
| `Ledgers.Ledger.VerifyChain` | src/ovpoc/ledger.py:66-75 | the loop says yes exactly when the entries are the chain of their own payloads |
| `HashChains.PrefixIsChain` | src/ovpoc/ledger.py:66-75 | a chain that lost its tail is still a chain, so verification alone does not notice |
| `Ledgers.HeadBindsRecords` | src/ovpoc/ledger.py:40-64 | two heads are equal exactly when the same records, as many of them, stand behind both |
| `Ledgers.ReceiptPinsPrefix` | src/ovpoc/ballotbox.py:170-187 | a receipt's position and entry hash found in a published chain pin every record up to there, and only that |
| `BallotBoxes.BallotBox.constructor` | src/ovpoc/ballotbox.py:235-240 | a new box: empty registries, the cadence anchored at the second of construction |
| `BallotBoxes.BallotBox.Open` | src/ovpoc/ballotbox.py:272-282 | opening declares a signed act and re-anchors the cadence; a second opening raises and changes nothing |
| `BallotBoxes.BallotBox.Close` | src/ovpoc/ballotbox.py:284-301 | closing catches up to its first reading of the clock, declares a signed act at its second and publishes last under that instant; it may be repeated, and need not follow an opening |
| `BallotBoxes.BallotBox.SetPublicationInterval` | src/ovpoc/ballotbox.py:449-472 | the cadence can be set and re-anchored until the opening act, and not after |
| `BoxLaws.ChosenCadenceIsKept` | src/ovpoc/ballotbox.py:449-472 | the cadence chosen before the opening is the one kept: the k-th publication is for the opening plus k times it; after the opening it cannot be chosen |
| `BoxLaws.NewBoxKeepsTime` | src/ovpoc/ballotbox.py:494-523 | a box not opened yet keeps time too: one empty publication for every whole interval since it was made |
| `BallotBoxes.BallotBox.CatchUp` | src/ovpoc/ballotbox.py:494-520 | the publishing loop: every boundary the clock has passed, in order |
| `BallotBoxes.BallotBox.Submit` | src/ovpoc/ballotbox.py:304-367 | admission with its six outcomes, what each records, and the signed receipt with the entry's own hash and position |
| `BoxLaws.SubmissionAnswers` | src/ovpoc/ballotbox.py:304-367 | accepted exactly when open, not closed, genuine and no replay; what is recorded where, with which reason, and the receipt over exactly that |
| `BallotBoxes.BallotBox.EffectiveBallots` | src/ovpoc/ballotbox.py:596-601 | the loop keeps the last accepted ballot per key |
| `BallotBoxes.BallotBox.CountSelections` | src/ovpoc/ballotbox.py:603-616 | the counting loop: each counter holds how many keys chose that selection, listed ones apart from the rest, and no counter is kept for a selection nobody chose |
| `BallotBoxes.BallotBox.Count` | src/ovpoc/ballotbox.py:603-625 | the published figures, as counts of sets of voters |
| `BoxLaws.ChoosersByLastBallot` | src/ovpoc/ballotbox.py:596-625 | the voters of a selection are the keys whose last accepted ballot makes it |
| `BoxLaws.FiguresTell` | src/ovpoc/ballotbox.py:603-625 | which selections have a figure, that it is the number of their voters, and that nobody is without one |
| `BallotBoxes.BallotBox.Tally` | src/ovpoc/ballotbox.py:627-646 | the last publication while open, with its instant and how many ballots it is after; the final count once closed; refusal before the first boundary |
| `BoxLaws.TallyIsLastPublication` | src/ovpoc/ballotbox.py:627-646 | while open the tally is the figures of exactly the ballots submitted before the last boundary reached, under its instant, and none before the first |
| `BoxLaws.ClosedTallyIsFinal` | src/ovpoc/ballotbox.py:641-642 | once closed it is the count of every accepted ballot |
| `BallotBoxes.BallotBox.PublishedView` | src/ovpoc/ballotbox.py:525-591 | phase, commitments, signed heads, statement key, acts, counts and snapshots always, the records from the close |
| `BoxLaws.ViewShows` | src/ovpoc/ballotbox.py:541-591 | the records exactly from the close; everything else always |
| `BoxLaws.OpenViewHidesBallots` | src/ovpoc/ballotbox.py:525-540 | while open, boxes with the same entry hashes, acts and publications show the same view, whatever ballots they hold |
| `BoxLaws.ViewsOnlyGrow` | src/ovpoc/ballotbox.py:537-539 | over every run each view extends every earlier one: no row moves backwards |
| `BoxLaws.PhaseFollows` | src/ovpoc/ballotbox.py:541-553 | not opened until the first opening, closed from the first close, whatever else is done |
| `BoxLaws.RegistryHoldsWhatWasHandedIn` | src/ovpoc/ballotbox.py:304-368 | over every run the two registries hold what was handed in between the first opening and the first close: the genuine ballots that are no replays, and the others with the reason, in the order they came |
| `BoxLaws.ActsTell` | src/ovpoc/ballotbox.py:253-260 | over every run the acts are the first opening and every close, each signed and floored to the second |
| `BallotBoxes.BallotBox.Restore` | src/ovpoc/ballotbox.py:391-444 | replaying stored records through `append`, accepting them only against the expected heads |
| `BallotBoxes.BallotBox.Reload` | src/ovpoc/ballotbox.py:372-444 | stored and restored, a closed box comes back entry for entry, with its acts, its series, its replay guard and its tally |
| `BoxModel.CadenceRefinesTimer` | src/ovpoc/ballotbox.py:494-520 | however often and whenever an open box is visited, what has been published is what a timer firing at anchor + k * interval would have published, each snapshot counting exactly the submissions read strictly before its boundary |
| `BoxModel.CloseSeries` | src/ovpoc/ballotbox.py:284-301 | the series a close leaves: every boundary up to its first reading as a timer would have published it, then the final figures under its second |
| `BoxModel.CloseCompletesSeries` | src/ovpoc/ballotbox.py:294-301 | the series is complete up to the closing instant exactly when the clock passes no boundary between the two readings; what is missing otherwise is every boundary in between, each with the final figures |
| `BoxModel.CloseCanMissBoundaries` | src/ovpoc/ballotbox.py:299-300 | the other case is real: opened at 0 with a boundary every second and closed with the readings 0.5 and 2.5, a box has no snapshot for the boundaries 1 and 2 |
| `BoxModel.OpenLeavesJustOpened` | src/ovpoc/ballotbox.py:272-282 | the state an opening leaves is the one the cadence theorem starts from |
| `BoxModel.ReceiptStaysTrue` | src/ovpoc/ballotbox.py:361-367 | whatever is done to the box after a ballot was accepted, the ballot stands at its receipt's position and the entry published there carries the receipt's hash |
| `BoxModel.RejectedAreInert` | src/ovpoc/ballotbox.py:304-367 | leaving every rejected and replayed submission out of any history gives the same accepted registry and refuses nothing |
| `BoxModel.FiguresIgnoreRejected` | src/ovpoc/ballotbox.py:603-625 | and in the count: with every rejected and replayed submission left out, all figures are the same but the number of rejections |
| `BoxModel.AcceptedRecordsDiffer` | src/ovpoc/ballotbox.py:334-361 | accepted records are pairwise different after any history: no replay is counted |
| `BoxModel.AcceptedAreGenuine` | src/ovpoc/ballotbox.py:325-341 | every accepted ballot carries a token and a signature that verify |
| `BoxModel.EffectiveIsLast` | src/ovpoc/ballotbox.py:596-601 | the effective ballot of a key is the accepted one after which no other came under that key |
| `BoxModel.CountPartitions` | src/ovpoc/ballotbox.py:603-625 | the options add up to `valid`, `valid` and `invalid` to the voters, and voters never exceed accepted ballots |
| `BoxModel.RegistryFrozen` | src/ovpoc/ballotbox.py:304-324 | after the close, and before the opening, no operation appends to either registry; a closed box stays closed |
| `BoxModel.PublicationOnlyGrows` | src/ovpoc/ballotbox.py:525-545 | no snapshot is withdrawn and no act forgotten by any operation |
| `BoxModel.MadePollIsSound` | src/ovpoc/ballotbox.py:189-233 | the box built with the program's own serialisation, hashing and count has everything the theorems ask of a box |
| `BoxModel.RestoresOnlyTheOriginal` | src/ovpoc/ballotbox.py:426-444 | restoring against the signed heads succeeds for the original records and for no others |
| `Offices.VRO.Reserve` | src/ovpoc/vro.py:739-791 | the wallet route's request, identity first |
| `OfficeLaws.ReservingTakesProof` | src/ovpoc/vro.py:768-790 | a reservation takes a signature over this id and value under the certified key; without it the answer is the one refusal, and the books stay |
| `OfficeLaws.RefusalsShowNothing` | src/ovpoc/vro.py:785-787 | before identity is established the answer is the same for any register, any time, a wrong identifier or a wrong signature |
| `Offices.VRO.Claim` | src/ovpoc/vro.py:792-857 | everything below the boundary, for both routes |
| `OfficeLaws.ClaimAnswers` | src/ovpoc/vro.py:792-857 | which of the six answers each case gets, with one entry in the private log |
| `Offices.VRO.ReserveSignedDocument` | src/ovpoc/vro.py:862-992 | the document route up to the claim, enrolment on the signature included |
| `OfficeLaws.DocumentTakesProof` | src/ovpoc/vro.py:862-1005 | the document route reserves exactly for a validated citizen in good standing who is on the register, or is put on it, and is free |
| `OfficeLaws.NoProofNoReservation` | src/ovpoc/vro.py:862-967 | any other document reserves nothing and enrols nobody |
| `OfficeLaws.RegisterComesFrom` | src/ovpoc/vro.py:969-1005 | over every run an id is on the register exactly when it was, or the roll named it, or its owner asked by document of an office that enrols |
| `OfficeLaws.OwnAdditionsAreMarked` | src/ovpoc/vro.py:969-1005 | whom the office added itself is marked, and nobody else |
| `Offices.VRO.CancelReservation` | src/ovpoc/vro.py:1007-1023 | a reservation is dropped and nothing else |
| `OfficeLaws.CancellingFrees` | src/ovpoc/vro.py:1007-1027 | a cancelled citizen may ask again, for whatever value |
| `Offices.VRO.Release` | src/ovpoc/vro.py:1029-1100 | the release is written down before anything is signed, and stays written when signing or the fault check raises |
| `OfficeLaws.ReleaseAnswers` | src/ovpoc/vro.py:1029-1100 | issued exactly when reserved for and the signature passes; written down first either way; refused and not written down otherwise |
| `Offices.VRO.IssueToken` | src/ovpoc/vro.py:725-737 | reserve and release as one act |
| `OfficeLaws.IssuingTakesProof` | src/ovpoc/vro.py:725-737 | issued at once exactly to a proven citizen in good standing who is registered and free, if the signing works |
| `Offices.VRO.QueryTokenRelease` | src/ovpoc/vro.py:1105-1148 | the answer to a voter, with the index found by the search loop |
| `OfficeLaws.QueryTakesProof` | src/ovpoc/vro.py:1105-1148 | only the citizen whose wallet signed this very question is answered; anybody else is told the same, that they are unknown |
| `OfficeLaws.DenialNamesTheCitizen` | src/ovpoc/vro.py:1105-1148 | a denial is the office's signature over this citizen's denial |
| `Offices.VRO.SupervisionDump` | src/ovpoc/vro.py:1157-1230 | the whole register: the enrolment flag and list, the rows in the order of the openings with what each route shows of a request (`src/ovpoc/vro.py:369-405`), the audit list, the signed head and count; and one more download |
| `OfficeLaws.RegisterShows` | src/ovpoc/vro.py:1198-1230 | each row opens the commitment beside it, tells whether the office added the citizen, and shows the request kept |
| `OfficeLaws.DocumentsAreNotShown` | src/ovpoc/vro.py:369-405 | a signed document is shown as its digest and length only |
| `Offices.VRO.RestoreReleases` | src/ovpoc/vro.py:626-688 | commitments replayed and compared with the head before anything else is taken over; a refusal leaves them appended |
| `Offices.VRO.ReorderOpenings` | src/ovpoc/vro.py:311-338 | the loops of `_in_chain_order`: the chain's openings in its order, the rest after them |
| `OfficeModel.NewOfficeIsSound` | src/ovpoc/vro.py:589-604 | a new office's books are in order |
| `OfficeModel.ActKeepsSound` | src/ovpoc/vro.py:792-857 | every step of either route, raising ones included, keeps reservations and releases apart and inside the register, and releases, openings, kept requests and log entries in one-to-one correspondence in log order |
| `OfficeModel.ReleaseKeepsSound` | src/ovpoc/vro.py:1029-1100 | a release keeps the books however it ends, and hands out a signature only for an id that had none, in the step that logs it |
| `OfficeModel.OneTokenPerIdentifier` | src/ovpoc/vro.py:953-1100 | along every run the blind signatures handed out go to different identifiers, each to the request kept for it, each passing the fault check, and number at most the log entries |
| `OfficeModel.ActKeeps` | src/ovpoc/vro.py:1029-1100 | nothing released is forgotten or moved in the log by any later step, and only a release returns a signature |
| `OfficeModel.ClaimIsExclusive` | src/ovpoc/vro.py:792-857 | a claim changes nothing but the private log, or reserves a registered id that has neither a reservation nor a release |
| `OfficeRecords.RegisterChains` | src/ovpoc/vro.py:1198-1230 | row i of the supervision register carries log entry i's commitment, so the rows chain to the signed head beside them and are as many as the signed count; every row names a registered citizen, no citizen twice, and shows a request |
| `OfficeRecords.QueryTellsTheTruth` | src/ovpoc/vro.py:1105-1148 | an identified voter is told of a release exactly when there was one, and the disclosed opening and index verify against the log; nobody else is told anything |
| `OfficeRecords.AnswerNamesOneVoter` | src/ovpoc/vro.py:497-510 | a disclosure verifies for another identifier exactly when identifier and opening run together to the same bytes; between openings of one length, for nobody else |
| `OfficeRecords.OpeningLengthMatters` | src/ovpoc/vro.py:301-308 | the condition is needed: the check does not look at the opening's length, and a disclosure for AB verifies for A with a longer opening |
| `OfficeRecords.OrderIsRestored` | src/ovpoc/vro.py:311-338 | the order of release comes back from any permutation of the openings whose commitments differ |
| `OfficeRecords.CommitmentsDiffer` | src/ovpoc/vro.py:301-308 | openings of one length under different identifiers have different commitments, where the hash does not collide on them |
| `OfficeRecords.NothingDropped` | src/ovpoc/vro.py:311-338 | on any stored chain and openings, contradictory ones too, no identifier is dropped or invented and each keeps its opening |
| `OfficeRecords.RestoreReproduces` | src/ovpoc/vro.py:606-688 | a restored office has the finished one's books and shows a supervisor the same register, whatever order storage put the openings in |
| `OfficeLaws.EverythingComesBack` | src/ovpoc/vro.py:606-688 | log, releases, openings in order, requests, private log, marks and downloads come back |
| `OfficeRecords.RestoresOnlyTheOriginal` | src/ovpoc/vro.py:673-679 | restoring against the signed head accepts the original commitments and no others |
| `Desks.OfficeDesk.TokenRequest` | service/api.py:501-543 | the wallet route's endpoint: held for an operator or issued at once, and the reply filed under c |
| `DeskLaws.IssuedIsCollected` | service/api.py:536-627 | told on any route that a token was issued, its signature is on file under the value asked for and collecting gives it; any other call leaves the file alone |
| `DeskLaws.RepliesStayOnFile` | service/api.py:500-804 | over any calls a reply is on file exactly when it was or was issued, and changes only by another issue for its value |
| `DeskLaws.AutomaticIssues` | service/api.py:501-543 | the automatic mode: who is issued a token |
| `DeskLaws.ManualHolds` | service/api.py:519-534 | the operator's mode: who is told to wait, and whose request is held |
| `DeskLaws.ManualReleasesNothing` | service/api.py:519-534 | in that mode nothing is released but by the operator |
| `DeskLaws.ModeIsAsSet` | service/api.py:764-775 | the mode is the one last set |
| `DeskLaws.TurnedAway` | service/api.py:513-590 | what is turned away before the office is asked, exactly when, with no effect |
| `Desks.OfficeDesk.SignedTokenRequest` | service/api.py:553-611 | the document route's endpoint |
| `DeskLaws.DocumentAnswers` | service/api.py:553-611 | the document route in either mode |
| `Desks.OfficeDesk.OperatorReleases` | service/api.py:777-793 | the held request is taken off the desk, then released |
| `Desks.OfficeDesk.OperatorCancels` | service/api.py:795-804 | the held request and the reservation go together |
| `DeskLaws.CancellingTakesBack` | service/api.py:795-804 | one citizen's request and reservation go, and it says whether there were any |
| `Desks.DeskStaysConsistent` | service/api.py:500-804 | under any sequence of calls the held requests are exactly the office's reservations with the same blinded values, every stored reply passes the fault check for the value it is filed under, and replies never outnumber logged releases |
| `DeskLaws.EveryRequestIsProven` | service/api.py:500-804 | whatever is called, by anybody, every request held and every request kept beside a release is proven to be this citizen's for this value |
| `DeskLaws.RegisterExhibitsRequests` | src/ovpoc/vro.py:1180-1185 | so every wallet signature in the supervision register verifies for its row's citizen and value |
| `Desks.HeldReleaseCompletes` | service/api.py:777-793 | a held release never fails for want of a reservation: it issues exactly when the signing operation's result passes the check, and is logged either way |
| `Desks.CollectedPasses` | service/api.py:614-627 | what is collected by presenting a blinded value is the reply filed under it, and passes the fault check for it |
| `Desks.DeskRefinesOffice` | service/api.py:500-804 | whatever is called at the desk, the office behind it has taken a run of its own steps, so everything proved of its runs holds |
| `Elections.CountAudit` | tools/verify_election.py:221-244 | over every interleaving of office steps and submissions by anyone, the ad-hoc keys among accepted ballots never exceed the logged releases, given tokens nobody can multiply |
| `Elections.RunsKeepTheBooks` | src/ovpoc/ballotbox.py:304-367 | every run keeps the office's books, the account of signatures handed out, and a box whose ballots are genuine and different |
| `Elections.SidesAreApart` | src/ovpoc/ballotbox.py:190-260 | office and box never touch each other: whatever the interleaving, each ends where its own part of the events takes it |
| `Verifiers.RunChecks` | tools/verify_election.py:136-257 | the verifier's verdict on every check and its tally; it raises exactly when a record cannot be read |
| `VerdictLaws.RecordChecksMean` | tools/verify_election.py:174-195 | tokens: every record's token is signed for the key it carries; votes: every selection is signed, over the record's own texts, under that key |
| `VerdictLaws.DistinctMeans` | tools/verify_election.py:197-200 | distinct: no two records are the same bytes |
| `VerdictLaws.ChainChecksMean` | tools/verify_election.py:202-219 | intact, head and signature: every row in place in the recomputed chain, whose end is the published and signed head |
| `VerdictLaws.RegisterChecksMean` | tools/verify_election.py:229-242 | the register recomputed from its commitments, and the office's two signatures |
| `VerdictLaws.NamingChecksMean` | tools/verify_election.py:151-159 | format, election and the two configuration digests |
| `VerdictLaws.AuditMeans` | tools/verify_election.py:243-245 | the audit: no more key texts than released tokens |
| `VerdictLaws.TallyMeans` | tools/verify_election.py:221-256 | the tally of any file: each selection by the key texts whose last record makes it, nobody uncounted |
| `VerdictLaws.PassingIsCertified` | tools/verify_election.py:136-257 | a passing report of a box that may be dishonest: every counted record has a valid token and signature, and there are no more voters than the released tokens the office signed |
| `VerdictLaws.VotersAreKeys` | tools/verify_election.py:222-224 | voters are counted by the text of their key: as many as the keys exactly when no key is spelt in two ways |
| `VerdictLaws.OneKeyTwoTexts` | tools/verify_election.py:99-100 | and a key can be spelt in two ways |
| `Verifiers.FollowChain` | tools/verify_election.py:204-210 | the chain walk, which stops at the first row that does not follow |
| `Verifiers.CountSelections` | tools/verify_election.py:246-253 | the verifier's own counting: options over the list, everything else by value |
| `Recounts.VotePayloadAgrees` | tools/verify_election.py:183-193 | the payload rebuilt from a record's texts is, byte for byte, the one the voter signed |
| `Recounts.MadeConfigDescribes` | tools/verify_election.py:99-157 | the verifier's own serialisation and hashing agree with the box's and the office's, where each signs under the key it publishes |
| `Recounts.TallyAgrees` | tools/verify_election.py:221-256 | over rows that carry the box's ballots, supersession by key text and by key give the same options, the same out-of-list counts and the same voters |
| `Recounts.HonestRecordPasses` | tools/verify_election.py:136-257 | the dumps of a closed box and an office that meet the count audit pass every check with the box's own figures |
| `Recounts.EveryElectionVerifies` | tools/verify_election.py:136-257 | end to end: whatever happens in an election, once closed its dumps (`service/api.py:262-303`) pass the outsider's recount |
| `Pinnings.SignedHeadPins` | tools/verify_election.py:204-218 | a file reaches a head of the box exactly when it holds the records behind that head over the true genesis value, or no records over a genesis value that is already the head |
| `BoxModel.SignedWasSeen` | src/ovpoc/ballotbox.py:541-571 | over any run, the box signs no head of accepted ballots but one it had when somebody looked; receipts, acts and the other registry's heads are never one |
| `Pinnings.PassingFileIsABeginning` | tools/verify_election.py:136-257 | a file that passes every check and has records, or the true genesis value, holds the first accepted ballots of the box, as many as it held when somebody looked, under the head it signed then; its tally is the box's at that moment |
| `Pinnings.PassingFileIsComplete` | tools/verify_election.py:204-228 | a file that passes every check holds all the accepted ballots exactly when it has as many rows as the box's closing count, and exactly when its head is the closing head and it has records or the true genesis value |
| `Pinnings.TruncatedFilePasses` | tools/verify_election.py:136-257 | the condition is needed: whatever happens after a view, the closed box's file cut back to that view passes every check, with the figures of that moment |
| `Pinnings.EverySeenLengthPasses` | tools/verify_election.py:136-257 | and no less is possible: every number of ballots the box was seen holding is the length of a passing file, under a head the box signed |
| `PinningExamples.SuppositionsCanHold` | tools/verify_election.py:136-257 | what is supposed of a file can all hold at once: an election whose complete file and whose shortened file both meet it and both pass |
| `Pinnings.EmptiedFilePasses` | tools/verify_election.py:204 | emptied of its records and naming the signed head as genesis value, a closed box's file still passes every check |
| `Pinnings.FileFromTheClose` | service/api.py:262-266 | there is a ledger file exactly once the box is closed |
| `PdfRequests.LiteralReadsBack` | src/ovpoc/pdfrequest.py:338-351 | text written by the three replacements reads back (section 7.3.4.2 of ISO 32000-1) exactly when it holds no carriage return, which a reader takes for a line end |
| `PdfRequests.ThreeReplacesAreOnePass` | src/ovpoc/pdfrequest.py:338-351 | the three successive replacements equal one-pass escaping |
| `PdfRequests.WholeKeyOnThePage` | src/ovpoc/pdfrequest.py:390-392 | the 64-character lines put together are the whole key |
| `PdfPages.PageStatesThePayload` | src/ovpoc/pdfrequest.py:354-403 | the page names the payload's election and configuration, shows the fingerprint of its value, and the value itself |
| `PdfPages.SamePageSamePayload` | src/ovpoc/pdfrequest.py:354-403 | two payloads with the same page are the same |
| `PdfPages.FingerprintShows` | src/ovpoc/pdfrequest.py:308-319 | the fingerprint is the first eight bytes of the hash, in four groups |
| `PdfPages.IdentifierShows` | src/ovpoc/pdfrequest.py:435 | the document's identifier is the first half of its body's hash, in capitals |
| `PdfRequests.AddKey` | src/ovpoc/pdfrequest.py:387-403 | the loop that puts the key on the page between the other lines |
| `PdfRequests.Render` | src/ovpoc/pdfrequest.py:420-510 | the rendered document, or refusal of an undecodable key or of text that is not ASCII |
| `PdfRequests.MadeRendererIsSound` | src/ovpoc/pdfrequest.py:420-510 | the renderer built from the program's own parts has everything the theorems ask of a renderer |
| `PdfRequests.WriteObjects` | src/ovpoc/pdfrequest.py:486-498 | the loop that writes the objects and notes where each begins |
| `PdfStructures.RenderedStructure` | src/ovpoc/pdfrequest.py:486-510 | in every rendered document of at most 10^10 bytes each cross-reference entry is ten digits that read as the position where its object starts, and `startxref` names the table (section 7.5.4 of ISO 32000-1) |
| `PdfReadings.OnePayloadPerDocument` | src/ovpoc/pdfrequest.py:575-613 | two payloads cannot both render to the beginning of one document |
| `PdfReadings.AcceptedMeansRendered` | src/ovpoc/pdfrequest.py:575-613 | what `check` accepts begins with what its payload renders to, wholly covered by the signature, and no other payload renders to a beginning of it |
| `PdfReadings.OfficeReadsWhatIsRendered` | src/ovpoc/vro.py:922-951 | the blinded value the office takes from a signed document is the one carried by the payload that document begins with the rendering of, under the signature of the citizen the validator named |
| `PdfRoundTrips.RenderedIsAccepted` | src/ovpoc/pdfrequest.py:517-613 | a rendered document with any tail is accepted for its own payload when covered, and refused for coverage when not |
| `JsonReadings.ReaderLoadsBodies` | src/ovpoc/pdfrequest.py:560-572 | the JSON reader gives the fields of every rendered body back, so what is supposed of the parser is met |
| `PdfLaws.WellFormedExactly` | src/ovpoc/pdfrequest.py:322-331 | a payload is well formed exactly when it has the three fields and no others, all text, and its key decodes |
| `PdfLaws.CheckAnswers` | src/ovpoc/pdfrequest.py:545-613 | which of the five answers a document gets: refused when its carriers differ or say nothing, accepted when it begins with the rendering of what one or both say and all of that is covered |
| `PdfLaws.StripTakesBlanks` | src/ovpoc/pdfrequest.py:538-539 | what is cut out of the embedded file loses the white space at both its ends, all of it and nothing else |
| `PdfExactnesses.AcceptedExactlyWhenUnmarked` | src/ovpoc/pdfrequest.py:517-572 | and that is so exactly when its canonical body contains neither `/Type /EmbeddedFile` nor `endstream`: otherwise the carriers disagree and it is refused |
| `GeneratorModel.NamesDistinct` | service/generate.py:73-81 | the identifiers are all different, however many there are |
| `GeneratorModel.NameShowsNumber` | service/generate.py:73-81 | an identifier shows its number in decimal, padded to six digits; the first five carry a text outside ASCII |
| `GeneratorModel.CheckedExactlyWhenDrawable` | service/generate.py:132-153 | with every selection on its side of the line and no count negative, a plan passes the check exactly when there is a way to draw it |
| `GeneratorModel.Selections` | service/generate.py:123-130 | the loop that expands the plan |
| `GeneratorModel.ExpandedCounts` | service/generate.py:123-130 | the expanded selections hold each as often as planned, as many as planned in all |
| `GeneratorModel.PlanIsMet` | service/generate.py:301-330 | for every shuffle, sample and order: everything submitted is accepted, per-option and protest counts are exactly the plan's, voters are those who cast, nothing is rejected |
| `GeneratorModel.FreshNoncesDiffer` | src/ovpoc/messages.py:90-115 | different nonces make different record digests, where the hash tells the records apart, so no generated ballot is taken for a replay |
| `Generators.LastAt` | service/generate.py:321 | the position of each citizen's last submission |
| `Generators.Populate` | service/generate.py:262-333 | the whole generator over the office and the box: every citizen's token is what the office's answer to their blinded key unblinds to; it ends closed, with the plan's figures as the tally and one logged release per citizen; a plan that fails the check changes nothing |
| `VoterSide.Voter.BuildAuthRequest` | src/ovpoc/voter.py:32-48 | the request, built only under the pinned key, over the blinded ad-hoc key |
| `VoterSide.Voter.AcceptToken` | src/ovpoc/voter.py:51-57 | a token is kept only if it verifies for the ad-hoc key; otherwise nothing changes |
| `VoterSide.ObtainToken` | src/ovpoc/voter.py:32-57 | an entitled voter is answered with a token that verifies, and the office logs one release for it |
| `VoterSide.GrantHolds` | src/ovpoc/voter.py:32-57 | whenever blinding goes through, the office's signature passes its fault check and unblinds to a token the box recognises |
| `VoterSide.RepliesAreBlindSignatures` | service/api.py:500-804 | under any calls and any failures, every reply kept for collection is the blind signature of the value it is filed under: s^e = c mod n, and no other octets |
| `VoterSide.Participate` | src/ovpoc/voter.py:1-70 | one voter's whole way: asked, answered, voted, and accepted as the effective ballot under their key exactly when no accepted record has this ballot's digest |
| `Scorer.AtLeast` | tools/score_challenge.py:51-68 | the descending loop computes the tail, and its clamp to 1 never bites |
| `Scorer.SumCountsWays` | tools/score_challenge.py:66-67 | the binomial sum counts the ways of guessing at least that many right |
| `Scorer.NoHitsIsCertain` | tools/score_challenge.py:59-63 | the zero-hit case equals the full sum, which is 1 |
| `Scorer.TailIsProbability` | tools/score_challenge.py:51-68 | the tail lies between 0 and 1 |
| `Scorer.NonincreasingInHits` | tools/score_challenge.py:51-68 | the tail does not grow with more hits |
| `Scorer.NondecreasingInClaimed` | tools/score_challenge.py:51-68 | the tail does not shrink with a longer claim |
| `Scorer.PaddingNeverHelps` | tools/score_challenge.py:71-100 | padding a claim with wrong or unknown names never turns a claim that does not show a leak into one that does |
| `Scorer.ScoreAccountsForEveryName` | tools/score_challenge.py:80-100 | hits, misses and unknown names add up to the claim |
| `Scorer.ScoreTells` | tools/score_challenge.py:71-100 | the hits, and the tail of as many in the whole claim, invented names included, out of the whole electorate; a leak below one in a thousand |

## Left out

- Canonical.CanonicalExact: is about flat objects over five kinds of value, which is every statement, record and log entry; nested lists and objects, which only the configuration and the whole files have, are not modelled.
- Verifiers.RunChecks: takes the files as parsed, with a field for whether the ledger is its own canonical form, and gives its verdicts as one value with a named field for each check rather than appending to a report's lists; the texts of the report are not modelled.
- Recounts.HonestRecordPasses: the check that the ledger is canonically serialised passes by that field, which the dump sets.
- Recounts.EveryElectionVerifies: likewise.
- Elections.CountAudit: the promise that tokens cannot be multiplied is a hypothesis on the run, since no such promise can be derived from the arithmetic.
- FastAPI routing, CORS, pages, consoles and file layout: transport and field copying without decisions.
- Certificate validation (`driver/`): the validator is a function returning a signer, a coverage length and flags, or a refusal.
- Key generation, primality, timing, and what a faulty signature would reveal.
- Floating point: the scorer is in exact rationals, instants are whole seconds and clock readings reals, page positions whole points below a million, beyond which the source would print an exponent.
- A publication interval that is not set is 0 here, as the source treats both alike; a negative one, on which its publishing loop does not end, is excluded.
- The box's supersession map is keyed by the ad-hoc key rather than by its base64 text, which is the same thing by `Base64.EncodeInjective`.
- Hexadecimal and base64 fields of the published files are read as the bytes they spell, except inside records and commitments, which stay text.
- Parsing of the three published files, and whether a file is its own canonical form, which is a field of the file here; a record whose selection is not an integer is counted as unreadable.
- The published configuration is a value here; its digest and its genesis field are not computed.
- Stored requests in their two older formats (`src/ovpoc/vro.py:341-366`), and release-log entries that are not commitments.
- The office's own audit page, and the order in which a supervisor is shown the self-enrolled, who are a set here.
- `find_ballot`, `record_receipt` and the verification handles: lookups over what is proved of the effective ballots.
- Octal escapes and balanced parentheses in the reading of PDF literal strings, which the writer never uses.
- The generator's progress figures and its answer key.
- Parsing depth: `json.loads` may exhaust the stack on nested input; here it answers or refuses.
- Coercion resistance and everything the blinding bijection does not decide.
