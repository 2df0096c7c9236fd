# Komms, modelled and proved in Dafny

Komms is an end-to-end encrypted messenger with a Rust cryptographic core, a
desktop client and a set of Python scripts that build and check its releases.
This project models the parts of it whose correctness cannot be seen by reading
one function, and proves what they promise together:

- **First-contact admission** (`Admission`, `PrekeyBundles`, `AdmissionFlow`,
  `AdmissionTheorems`, `PublicAdmission`, `AdmissionAuthenticity`, `Postcard`): a
  policy is signed into a prekey bundle and read back under saturating clock
  arithmetic. Attaching and verifying are shown to be inverse to each other at
  exactly the times of the signed window, first inside the module and then at
  the public entry point, which checks the bundle itself before it looks at the
  policy. What passes is shown to be what the identity signed, part by part.
- **The mention draft** (`TextDiff`, `Unicode`, `Mentions`, `MentionRuns`,
  `MentionSending`, `MentionReview`, `MentionComposer`): identity-linked spans are
  kept while free text is edited, seen only as the text before and after. What
  they cover and when they stay disjoint is proved over whole runs of composer
  events, down to the UTF-8 ranges that are sent. What was shown to the sender
  before links go out is proved over whole sessions, in which the backend may
  answer late.
- **The recorder** (`Recorder`): a bounded capture, a resampler and a WAVE
  writer, up to what a player reads.
- **The conformance kit** (`JsonValues`, `Hex`, `KitExpressions`, `KitTheorems`,
  `KitMeaning`, `KitRuns`, `KitFiles`, `Pcapng`): a small expression language with
  references to earlier answers and the octets its expressions mean, JSON
  pointers, an incremental write mode and a batch check mode, and a packet
  capture.
- **Message formatting** (`Localization`, `TemplateMeaning`): three renderers and
  one signature, and what a template means without them.
- **Release evidence** (`ArchiveDigest`, `TarDigest`, `Reproducibility`,
  `ArchiveEvidence`, `ReleaseSigning`, `Licences`): archive digests over framed
  streams, comparison reports and their validator, what a report says about the
  archives behind it, signing coverage, and two licence resolvers.

`Wrappers`, `Bytes`, `Strings`, `Sequences` and `Sorting` hold what these share.
`dafny verify dfyconfig.toml` checks every file.

Where the program updates fields or runs a loop, the model has a class or a
method with the same branches, proved equal to a function on values; the
theorems are about those functions.

## What is taken as given

- The hash, key derivation, signing and signature checking are four functions in
  a record (`PrekeyBundles.Crypto`). The only laws assumed, and only where they
  are written as a precondition (`Lawful`), are that a signature checks under its
  own key and that a public identity carries its own signature of its agreement
  key. That nothing else checks under a key is a precondition of two results and
  written there (`AdmissionAuthenticity.OnlySaid`). The hash is not assumed to be injective: results that depend on it say "or
  these two inputs are a collision", and name the inputs.
- The postcard wire format is not assumed: `Postcard` and `Admission.Encode`
  write it out, and its round trip is proved.
- The adapter of the conformance kit is a function from requests to what it
  prints, which is what stateless and deterministic means. What it prints is
  already parsed; its shape and correlation id are checked in the model.
- How a platform prints arguments and integers, how it raises letters to upper
  case, how it trims white space and how many octets an archive reader hands out
  at a time are function parameters. Each renderer has printers of its own, and
  where two renderers are said to give the same string, the statement says on
  which arguments their printers must agree. Of the others nothing is assumed.
- Clocks are parameters. Audio samples are real numbers and sample rates are
  positive integers.

## What turned out otherwise

- Picking a member in front of a mention of the same name puts two spans over
  the same characters, because the diff sees the text appear further right
  (`MentionRuns.PickedTwice`). Picking a member over their own mention does the
  same, because the text does not change and nothing is reconciled
  (`MentionRuns.PickedAgain`). `MentionRuns.PickedValid` says exactly when the
  spans stay disjoint, for every selection and in terms of the draft before the
  pick, and `MentionRuns.PickedAtCaret` says it for a caret.
- Clicking a token away can take the link of a neighbour with it
  (`MentionRuns.TokenRemovedTakesNeighbour`); `MentionRuns.TokenRemovedAlone`
  says exactly when it does not.
- Scheduling a message empties the input box without resetting the draft
  (`apps/desktop/ui/main.js:3352`). A token click after that leaves spans beyond
  the text unless there was only one (`MentionRuns.ScheduledThenToken`), and a
  pick does so unless there was none (`MentionRuns.ScheduledThenPick`).
- A submitted message takes its text before the backend is asked about mentions
  and its spans after the answer, so typing in between shifts the links
  (`MentionSending.TypedWhileReviewed`). `MentionSending.SentAfterTyping` says
  exactly when they are right all the same, from the draft as submitted and the
  texts typed since: every mention that survives the typing stands where it
  stood, or where that draft shows another picked name of its member. So
  typing nothing, and typing behind every mention, do no harm
  (`MentionSending.UnchangedSends`, `MentionSending.TypedBehindSends`).
- A message to a group with a lifetime set is sent as plain text: its links are
  given up without a question (`MentionReview.SentAtOnce`).
- A message is addressed to the conversation that is open when the backend has
  answered, not to the one it was submitted in. One late answer only brings the
  review up again, but a second one sends the text to the other group
  (`MentionReview.TwoLateAnswers`). Links never go to a group other than the one
  asked about without such an earlier late answer
  (`MentionReview.MisdirectedTwiceLate`).
- Attaching admission ignores the limits on relay hints that verifying enforces:
  a bundle with twenty hints is accepted, and refused once admission is attached
  (`PublicAdmission.FullBundleRefused`). `PublicAdmission.AttachedVerifiesPublicly`
  gives the exact condition, and shows that the clock skew never extends the
  expiry that callers see.
- The JSON pointer function is documented as strict about RFC 6901, and follows
  indices with zeros in front (`JsonValues.LeadingZeroAccepted`) and tildes that
  escape nothing (`JsonValues.TildeAccepted`). A pointer that it follows is one
  that the RFC writes if and only if it has neither
  (`JsonValues.PointerConforms`).
- `$repeat_hex` lets a list of digit strings through its check and then yields a
  list. It yields hex exactly when it was given a string
  (`KitTheorems.RepeatMeans`, `KitTheorems.RepeatOfList`).
- Two tar artifacts are always reported as equal after normalization, whatever
  they hold, because both lack an unsigned digest
  (`Reproducibility.AbsentFieldsAgree`, `ArchiveEvidence.TarsAlwaysNormalized`).
  Two ZIP artifacts are so reported if they hold the same files apart from
  signatures, and otherwise only if hashed streams collide
  (`ArchiveEvidence.NormalizedZipsMatch`). A comparison report passes the
  validator if and only if the manifests are comparable in the sense of
  `Reproducibility.Comparable`.
- An empty recording is refused only if it was captured at 16000 samples a
  second; at any other rate it becomes one sample of silence
  (`Recorder.RecordingWritten`, `Recorder.EmptyRecordingWritten`).
- The desktop renderer refuses integers beyond the safe range, which the
  scripts' renderer accepts (`Localization.DesktopAgrees`), and writes truth values
  in lower case where the scripts write them capitalised
  (`Localization.FlagDiffers`). Up to integer printing the two give the same string
  if and only if no truth value is shown as text (`Localization.FlagsDecide`).
- Check mode compares answers as Python does, so a committed `true` passes for a
  response of `1` (`KitRuns.TrueForOne`). A clean check pins a committed answer if
  and only if it holds no truth value and no number with a whole value
  (`KitRuns.CheckPins`); every response has a truth value, so none that was
  stored is pinned (`KitRuns.NeverPinned`).

## Model

| member | source | states |
|---|---|---|
| Admission.Validate | crates/kult-crypto/src/admission.rs:78-91 | succeeds exactly on policies whose fields are within bounds and whose issuers ascend strictly as a whole, though only neighbours are compared |
| Admission.NeighboursAscend | crates/kult-crypto/src/admission.rs:84-88 | issuers that ascend from each to the next ascend between any two |
| Admission.LessSpelled | crates/kult-crypto/src/admission.rs:84-88 | one issuer is below another exactly if it is smaller where they first differ |
| Admission.IssuersDistinct | crates/kult-crypto/src/admission.rs:78-91 | a valid policy names no issuer twice |
| Admission.BuildCanonical | crates/kult-crypto/src/admission.rs:122-144 | pushing the fields one by one gives the canonical octets |
| Admission.CanonicalLayout | crates/kult-crypto/src/admission.rs:122-144 | where each field stands in the signed octets, numbers least significant octet first |
| Admission.CanonicalInjective | crates/kult-crypto/src/admission.rs:122-144 | descriptors with the same signed octets differ at most in their signatures |
| Admission.EncodeReads | crates/kult-crypto/src/admission.rs:94-119 | the wire form of a descriptor decodes to it with nothing left over |
| Admission.EncodeFits | crates/kult-crypto/src/admission.rs:263-269 | the wire form of an allowed descriptor never exceeds the size limit, so that check cannot fail |
| Admission.EncodeSize | crates/kult-crypto/src/admission.rs:94-119 | the size of the wire form, from the policy, the epoch, the expiry and whether there is an invitation |
| PrekeyBundles.FramedInjective | crates/kult-crypto/src/prekeys.rs:277-303 | length-framed hints determine the list of hints |
| PrekeyBundles.SigningBytesInjective | crates/kult-crypto/src/prekeys.rs:277-303 | the octets to be signed determine the keys, the expiry and the hints that are signed with them |
| PrekeyBundles.DigestInputInjective | crates/kult-crypto/src/prekeys.rs:277-313 | bounded bundles with the same octets under the digest agree in keys, prekeys, expiry and ordinary hints |
| AdmissionFlow.VerifyDescriptor | crates/kult-crypto/src/admission.rs:146-174 | saturating 64-bit arithmetic gives the verdict of unbounded integers, and the product never overflows |
| AdmissionFlow.CommitmentInputInjective | crates/kult-crypto/src/admission.rs:206-221 | the octets hashed into a commitment determine recipient, digest, epoch, expiry and secret |
| AdmissionFlow.PrekeyBundle.AttachAdmission | crates/kult-crypto/src/admission.rs:223-278 | succeeds exactly for a valid policy, the bundle's own identity and an unexpired bundle; the new state in full, and no change on refusal |
| AdmissionFlow.VerifyAdmission | crates/kult-crypto/src/admission.rs:280-325 | the loop over hints and the checks after it give the verdict, error kinds included |
| AdmissionTheorems.ScanExact | crates/kult-crypto/src/admission.rs:281-301 | the loop succeeds exactly when each kind of entry occurs at most once and decodes completely |
| AdmissionTheorems.VerdictExact | crates/kult-crypto/src/admission.rs:280-325 | verification succeeds exactly when the entries read so, version, limits and window are as prescribed, the signature checks under the bundle's identity, and digest, expiry and commitment are those of the bundle |
| AdmissionTheorems.AttachedHints | crates/kult-crypto/src/admission.rs:234-276 | attaching leaves one descriptor, the invitation if any, and the ordinary hints in order |
| AdmissionTheorems.IssuedSays | crates/kult-crypto/src/admission.rs:234-262 | the issued descriptor says what the policy says, about this bundle, in the epoch of the moment |
| AdmissionTheorems.AttachedVerifies | crates/kult-crypto/src/admission.rs:223-325 | whatever was attached verifies at a time if and only if that time is zero or in the window widened by the skew, and gives back descriptor and invitation |
| AdmissionTheorems.CallsKeepOrdinary | crates/kult-crypto/src/admission.rs:234-276 | over any sequence of attach calls ordinary hints never change, and one allowed call leaves exactly one descriptor and at most one invitation |
| AdmissionTheorems.RearrangedVerifies | crates/kult-crypto/src/admission.rs:186-204 | moving admission entries among the hints changes no successful verdict |
| AdmissionTheorems.WithoutInvitationVerifies | crates/kult-crypto/src/prekeys.rs:340-346 | a verified bundle without its invitation verifies to the same descriptor, under an unchanged bundle signature |
| AdmissionTheorems.InvitationBound | crates/kult-crypto/src/admission.rs:308-323 | an invitation that verifies is the committed one, for that recipient, digest, epoch and expiry, or exhibits a collision |
| AdmissionTheorems.DescriptorBound | crates/kult-crypto/src/admission.rs:195-204 | one descriptor verifies in two bundles only if they have the same content, or their digest inputs collide |
| PublicAdmission.SumLengths | crates/kult-crypto/src/prekeys.rs:363-367 | adding up the hint lengths with overflow checked gives their total, or nothing exactly when it overflows |
| PublicAdmission.Verify | crates/kult-crypto/src/prekeys.rs:362-399 | the limits, the expiry and the four signatures are checked in order, error kinds included |
| PublicAdmission.VerifyPublic | crates/kult-crypto/src/prekeys.rs:332-335 | verifies the bundle first and the admission then |
| PublicAdmission.PublicExact | crates/kult-crypto/src/prekeys.rs:332-399 | public verification succeeds exactly when every limit holds, the bundle is unexpired, all four signatures check and the admission verifies |
| PublicAdmission.AttachedFits | crates/kult-crypto/src/prekeys.rs:362-378 | the attached bundle is within every limit if and only if the ordinary hints left room for the new entries |
| PublicAdmission.AttachedVerifiesPublicly | crates/kult-crypto/src/prekeys.rs:320-335 | an attached bundle passes at a time if and only if its keys are genuine, there was room, and the time is zero or between the epoch start less the skew and the expiry; it gives back descriptor and invitation |
| PublicAdmission.AttachedVerifiesAtOnce | crates/kult-crypto/src/prekeys.rs:320-335 | at the moment of attaching it passes if and only if its keys are genuine and there was room |
| PublicAdmission.FullBundleRefused | crates/kult-crypto/src/prekeys.rs:362-378 | a bundle with twenty hints is within the limits, and with admission attached it is refused at every time |
| PublicAdmission.BuiltVerifies | crates/kult-node/src/lib.rs:2304-2320 | building, attaching and verifying at once succeeds if and only if the policy is valid, the bundle is not expired, its post-quantum key has the right size and the hints leave room |
| PublicAdmission.InvitationMoves | crates/kult-crypto/src/prekeys.rs:263-275 | where the invitation stands among the hints changes no successful public verdict |
| PublicAdmission.WithoutInvitationPasses | crates/kult-crypto/src/prekeys.rs:337-346 | a bundle that passes still passes without its invitation, with the same descriptor |
| AdmissionAuthenticity.KindsApart | crates/kult-crypto/src/prekeys.rs:277-303 | a signature on one kind of statement is never one on another |
| AdmissionAuthenticity.ContentsDetermined | crates/kult-crypto/src/prekeys.rs:263-303 | two bounded bundles with the same signed octets agree in everything but signatures and invitation |
| AdmissionAuthenticity.PassedWasSaid | crates/kult-crypto/src/prekeys.rs:332-399 | if nothing checks under a key but what its owner said, a bundle that passes is the owner's in every part: agreement key, both prekeys, contents and policy were each signed, and as what they are |
| AdmissionAuthenticity.UnsaidNeverPasses | crates/kult-crypto/src/admission.rs:280-325 | a policy that was never signed is never verified, whatever bundle carries it |
| TextDiff.Diff | apps/desktop/ui/main.js:1768-1782 | the two scanning loops compute the diff |
| TextDiff.DiffAgrees | apps/desktop/ui/main.js:1768-1782 | the texts agree before and after the diffed range |
| TextDiff.DiffIsShortest | apps/desktop/ui/main.js:1768-1782 | no reading of the change as a replacement of one range has shorter ranges |
| TextDiff.InsertionDiff | apps/desktop/ui/main.js:1768-1782 | an insertion is diffed as one of the same length, shifted right by the stated overlap |
| TextDiff.DeletionDiff | apps/desktop/ui/main.js:1768-1782 | a deletion likewise |
| TextDiff.ReplacementDiff | apps/desktop/ui/main.js:1768-1782 | a replacement that differs at both ends is diffed as itself |
| Unicode.HasUnpairedSurrogate | apps/desktop/ui/main.js:1736-1748 | false exactly for well-formed text |
| Unicode.WellFormedIsUtf16 | apps/desktop/ui/main.js:1736-1748 | well-formed text is exactly what encoding scalar values as UTF-16 gives (section 2 of RFC 2781) |
| Unicode.EncodeInjective | apps/desktop/ui/main.js:1750-1752 | different well-formed texts have different octets |
| Unicode.OctetsReadBack | apps/desktop/ui/main.js:1750-1752 | the octets of a scalar value are read back by the rules of section 3 of RFC 3629, whatever follows |
| Unicode.SliceEncodes | apps/desktop/ui/main.js:1750-1752 | between two boundaries the offsets cut out the encoding of the text between them |
| Unicode.OffsetsIncrease | apps/desktop/ui/main.js:1750-1752 | a later boundary has a greater offset |
| Unicode.OffsetOfBoundary | apps/desktop/ui/main.js:1750-1752 | the offset of a position is the offset of a boundary only if the position is that boundary |
| Unicode.InsideCharacter | apps/desktop/ui/main.js:1754-1764 | no boundary has an offset strictly inside a character |
| Unicode.Utf16Offset | apps/desktop/ui/main.js:1754-1764 | returns the one boundary with the given octet offset, and null exactly when there is none |
| Mentions.ReconciledMembers | apps/desktop/ui/main.js:1784-1795 | after an edit there are exactly the surviving spans, moved |
| Mentions.ReconciledLength | apps/desktop/ui/main.js:1784-1795 | nothing is dropped exactly when the edit reaches into no span |
| Mentions.MovedCovers | apps/desktop/ui/main.js:1784-1795 | a surviving span covers the same characters in the new text |
| Mentions.ReconcileKeepsOrder | apps/desktop/ui/main.js:1766-1804 | for any two texts, spans that were ordered, disjoint and in bounds stay so |
| Mentions.PutOrdered | apps/desktop/ui/main.js:1903-1918 | a span put in place leaves the list ordered and disjoint if and only if it keeps apart from every other |
| MentionRuns.PickedValid | apps/desktop/ui/main.js:1903-1918 | a pick over any selection keeps the invariant if and only if no mention of the draft before it reaches into the selection it leaves unchanged, or stays or is moved into the range of the new one |
| MentionRuns.PickedAtCaret | apps/desktop/ui/main.js:1903-1918 | at a collapsed caret, the same in terms of how far the text after the caret agrees with itself pushed right |
| MentionRuns.PickedBeforeOtherText | apps/desktop/ui/main.js:1903-1918 | a pick at a caret not followed by an at sign keeps the invariant |
| MentionRuns.PickedTwice | apps/desktop/ui/main.js:1903-1918 | for every name, picking it twice at the start of an empty draft breaks the invariant |
| MentionRuns.PickedAgain | apps/desktop/ui/main.js:1766-1767 | for every name, picking it over its own mention breaks the invariant |
| MentionRuns.PickedOverSelection | apps/desktop/ui/main.js:1903-1918 | in particular a pick over a selection that differs at both ends is always clear |
| MentionRuns.TokenRemovedValid | apps/desktop/ui/main.js:1833-1842 | clicking a token away keeps the invariant |
| MentionRuns.TokenRemovedAlone | apps/desktop/ui/main.js:1833-1842 | it drops no other link if and only if no other mention reaches into the removed range moved by its echo |
| MentionRuns.TokenRemovedBeforeOtherText | apps/desktop/ui/main.js:1833-1842 | in particular if what follows does not start with an at sign |
| MentionRuns.TokenRemovedTakesNeighbour | apps/desktop/ui/main.js:1833-1842 | for every name, of two adjacent mentions of it removing the first drops both |
| MentionRuns.StepValid | apps/desktop/ui/main.js:2472-2477 | an event that finds the box in step keeps the invariant if and only if it is no pick or a clear one |
| MentionRuns.StepLabelled | apps/desktop/ui/main.js:1806-1818 | every such event keeps each span over the name its member was picked under, whether spans overlap or not |
| MentionRuns.RunCovers | apps/desktop/ui/main.js:1766-1842 | over every run whose picks and clicks find the box in step, wherever the picks are made, each span is in bounds and covers exactly the name it was inserted with |
| MentionRuns.RunKeeps | apps/desktop/ui/main.js:1766-1842 | over every such run whose picks are clear, the spans stay ordered, disjoint and in bounds |
| MentionRuns.RunBreaksAtPick | apps/desktop/ui/main.js:1766-1918 | after every such run the next event keeps the invariant if and only if it is no pick or a clear one |
| MentionRuns.PlainIsSound | apps/desktop/ui/main.js:1766-1918 | in every run of typing, token clicks and picks at a caret that no at sign follows, all picks are clear |
| MentionRuns.UnscheduledInSync | apps/desktop/ui/main.js:1806-1818 | without scheduling the box is in step after every run |
| MentionRuns.TypingIsSound | apps/desktop/ui/main.js:2472-2477 | every run of typing and token clicks keeps the invariant without further condition |
| MentionRuns.ScheduledThenToken | apps/desktop/ui/main.js:3352 | after scheduling, a token click keeps the invariant if and only if there was one mention |
| MentionRuns.ScheduledThenPick | apps/desktop/ui/main.js:3352 | after scheduling, a pick keeps the invariant if and only if there was no mention |
| MentionRuns.ScheduledBreaksTokens | apps/desktop/ui/main.js:3352 | a draft with two mentions where it does not |
| MentionComposer.ReconcileSpan | apps/desktop/ui/main.js:1784-1795 | the branches for insertions and replacements keep and move exactly the surviving spans |
| MentionComposer.Composer.ReconcileMentionEdit | apps/desktop/ui/main.js:1766-1804 | the loop reconciles all spans and counts those it drops |
| MentionComposer.Composer.ReplaceDraftRange | apps/desktop/ui/main.js:1806-1818 | box, last text and spans change together, and the caret ends behind the replacement |
| MentionComposer.Composer.InsertMention | apps/desktop/ui/main.js:1903-1918 | performs the pick event of the run model |
| MentionComposer.Composer.RemoveToken | apps/desktop/ui/main.js:1833-1842 | performs the token event of the run model |
| MentionComposer.Composer.OnInput | apps/desktop/ui/main.js:2472-2477 | performs the typing event of the run model |
| MentionComposer.Composer.ResetMentionDraft | apps/desktop/ui/main.js:1715-1726 | the draft is empty, in step with the box, and nothing is reviewed |
| MentionComposer.Composer.BeginSubmit | apps/desktop/ui/main.js:3235-3253 | what is sent at once, refused or held until the backend has answered, and an empty draft exactly if something was sent |
| MentionComposer.Composer.FinishSubmit | apps/desktop/ui/main.js:3254-3297 | performs the step that a session makes when an answer arrives: another review, nothing, a plain message or links, with the draft and the review that leaves |
| MentionSending.CoveredBoundaries | apps/desktop/ui/main.js:3274-3278 | a span over a well-formed name in well-formed text lies on character boundaries |
| MentionSending.SentCovers | apps/desktop/ui/main.js:3274-3278 | after every run whose picks and clicks find the box in step, each range sent lies on code-point boundaries and selects exactly the octets of the name it links |
| MentionSending.SentAfterRun | apps/desktop/ui/main.js:3249-3284 | if the picks were clear, the ranges are also in order and disjoint |
| MentionSending.SentAfterPlainRun | apps/desktop/ui/main.js:3249-3284 | both hold after every run of typing, token clicks and picks at a caret that no at sign follows |
| MentionSending.SelectsShown | apps/desktop/ui/main.js:3274-3278 | a range selects a picked name if and only if the text it is taken from shows that name at the span |
| MentionSending.SentLater | apps/desktop/ui/main.js:3235-3284 | with the text taken before and the spans after the answer, every range is right if and only if the text taken shows a picked name at every span |
| MentionSending.SentAfterTyping | apps/desktop/ui/main.js:3235-3284 | the same over the draft as submitted and the texts typed since: every range is right if and only if each surviving mention was left in place or moved onto another picked name of its member |
| MentionSending.UnchangedSends | apps/desktop/ui/main.js:3235-3284 | with nothing typed since, every range is right |
| MentionSending.TypedBehindSends | apps/desktop/ui/main.js:3235-3284 | whatever is typed behind every mention, every range is right |
| MentionSending.TypedWhileReviewed | apps/desktop/ui/main.js:3235-3284 | a space typed in between makes the one range wrong |
| MentionReview.SubmittedLinks | apps/desktop/ui/main.js:3235-3284 | from an empty draft through any run, the submit handler with its own check, more typing and the answer: links go out with the text as submitted, which is well formed, and are right if and only if the typing left them so |
| MentionReview.SubmittedPlainly | apps/desktop/ui/main.js:3235-3284 | submitted after a plain run and answered at once, they are right, in order and disjoint |
| MentionReview.SentAtOnce | apps/desktop/ui/main.js:3235-3253 | what is sent at once goes to the open conversation as trimmed text and disappears exactly if a lifetime is set and it is no note; links are given up without a question exactly when a lifetime is set |
| MentionReview.PlainIfConfirmed | apps/desktop/ui/main.js:3254-3272 | after the question a plain message goes out exactly under a seen review, without support and if confirmed |
| MentionReview.LinkedWasShown | apps/desktop/ui/main.js:3254-3284 | in every session of pickers, refreshes, submissions and changes of conversation, links go out only with support and under a token shown earlier in the same draft |
| MentionReview.ShownThenSent | apps/desktop/ui/main.js:1853-1901 | conversely, once the picker, a refresh or a submission has shown a token, a supporting answer under it sends the links |
| MentionReview.RefreshedSays | apps/desktop/ui/main.js:1896-1900 | a refresh under the token already held changes nothing, and any other is what the sender has seen from then on |
| MentionReview.MisdirectedTwiceLate | apps/desktop/ui/main.js:3254-3284 | links go to another group than was asked about only if an earlier answer in the same draft was late too |
| MentionReview.TwoLateAnswers | apps/desktop/ui/main.js:3254-3284 | two late answers address a text to the group that is open by then |
| Recorder.Capture.OnAudioProcess | apps/desktop/ui/main.js:684-698 | the capture holds the first samples delivered, up to a minute, and stops exactly when it is full |
| Recorder.Capture.Concatenated | apps/desktop/ui/main.js:581-586 | the chunks laid end to end are those samples |
| Recorder.RunCallbacks | apps/desktop/ui/main.js:577-698 | over every run of callbacks the recording is the first min(total, 60 times the rate) samples |
| Recorder.ResampleMono | apps/desktop/ui/main.js:486-499 | the loop computes the interpolated samples, missing ones included |
| Recorder.LeftInRange | apps/desktop/ui/main.js:486-499 | the left neighbour of every output sample exists |
| Recorder.ResampledBetween | apps/desktop/ui/main.js:486-499 | nothing is read out of range, and every output lies between its two neighbours |
| Recorder.ResampledFits | apps/desktop/ui/main.js:486-499 | the output has as many samples as fit into the time of the capture, or one |
| Recorder.ResampledOnLine | apps/desktop/ui/main.js:486-499 | an output between two captured samples lies on the straight line through them, at its own place |
| Recorder.ResampledHolds | apps/desktop/ui/main.js:486-499 | behind the last captured sample that sample is held |
| Recorder.LinesAreStraight | apps/desktop/ui/main.js:486-499 | every function that adds a multiple of the place to a constant is straight in that sense |
| Recorder.LineReproduced | apps/desktop/ui/main.js:486-499 | a straight line is reproduced wherever the output stands within the capture |
| Recorder.ResampledLength | apps/desktop/ui/main.js:486-499 | a capture of at most a minute resamples to at most 960000 samples |
| Recorder.QuantizedFaithful | apps/desktop/ui/main.js:523-526 | quantizing is monotone, exact at full scale, and less than two steps off |
| Recorder.QuantizedTowardZero | apps/desktop/ui/main.js:523-526 | within full scale a sample is cut off towards zero |
| Recorder.CanonicalWave | apps/desktop/ui/main.js:501-528 | writing in place gives header and samples, or refuses an empty or overlong recording |
| Recorder.WaveReads | apps/desktop/ui/main.js:501-528 | a reader of the format accepts every file written, with consistent sizes and rates, and reads back the quantized samples |
| Recorder.RecordingWritten | apps/desktop/ui/main.js:486-528 | a recording of at most a minute is refused if and only if it is empty and was captured at the target rate |
| Recorder.EmptyRecordingWritten | apps/desktop/ui/main.js:486-528 | at every other rate an empty recording is written as one silent sample |
| JsonValues.UnescapeEscape | conformance/v1/kitlib.py:175-198 | unescaping undoes the escaping of section 3 of RFC 6901, for every token |
| JsonValues.JsonPointer | conformance/v1/kitlib.py:175-198 | the loop over the parts of a pointer leads where descending by them leads |
| JsonValues.PointerFollowsPath | conformance/v1/kitlib.py:175-198 | the pointer written for a path into a value leads to what stands there, whatever its keys contain |
| JsonValues.DescendHasPath | conformance/v1/kitlib.py:175-198 | whatever a pointer leads to stands at the end of a path as long as the pointer |
| JsonValues.EscapedAsWritten | conformance/v1/kitlib.py:185 | a part is escaped as the RFC escapes it if and only if each of its tildes is followed by zero or one |
| JsonValues.PointerConforms | conformance/v1/kitlib.py:175-198 | a pointer that is followed is one the RFC writes if and only if its escapes are well formed and none of its indices has a zero in front |
| JsonValues.TildeAccepted | conformance/v1/kitlib.py:185 | a tilde that escapes nothing is followed, though no path is written so |
| JsonValues.LeadingZeroAccepted | conformance/v1/kitlib.py:189-195 | an index of two zeros is followed, though no path is written so |
| JsonValues.AlikeIsNormal | scripts/update-conformance-vectors.py:104-109 | Python equates two values if and only if they are the same once truth values and numbers are written as their amounts |
| JsonValues.AlikePins | scripts/update-conformance-vectors.py:104-109 | it equates a value with itself alone if and only if that holds no truth value and no number with a whole value |
| KitTheorems.ResolveMonotone | conformance/v1/kitlib.py:207-309 | an expression that resolves keeps its value when answers are added |
| KitTheorems.ResolveOpFree | conformance/v1/kitlib.py:207-309 | over answers without operators every resolved value is without operators |
| KitTheorems.ResolveIdentity | conformance/v1/kitlib.py:207-309 | a value without operators resolves to itself |
| KitTheorems.ResolveTwice | conformance/v1/kitlib.py:207-309 | resolving a resolved value changes nothing |
| KitTheorems.Utf8HexMeans | conformance/v1/kitlib.py:215-222 | the result is hex for the UTF-8 octets of the text, within the bound |
| KitTheorems.RepeatMeans | conformance/v1/kitlib.py:224-234 | the result is hex for that many copies of the byte exactly when the byte was a string, within the bound |
| KitTheorems.RepeatOfList | conformance/v1/kitlib.py:224-234 | a list of two digit strings comes out as a list |
| KitTheorems.ConcatMeans | conformance/v1/kitlib.py:236-246 | the result is hex for the octets of all parts in order, within the bound |
| KitTheorems.PadMeans | conformance/v1/kitlib.py:248-270 | the result keeps the prefix, has exactly the length asked for and is filled with the byte |
| KitTheorems.XorMeans | conformance/v1/kitlib.py:272-295 | exactly the named octet changes, by exclusive or |
| KitTheorems.XorOfTwice | conformance/v1/kitlib.py:272-295 | applied twice it gives back the source |
| KitTheorems.XorTurnsBits | conformance/v1/kitlib.py:272-295 | in the changed octet exactly the bits of the mask are turned over |
| KitTheorems.OperandsRequired | conformance/v1/kitlib.py:248-295 | operands that are no hex, octets that are more than one and amounts that are no integers are refused |
| KitTheorems.PadShape | conformance/v1/kitlib.py:248-256 | only an object of exactly the right fields is taken for a padding |
| KitTheorems.XorShape | conformance/v1/kitlib.py:272-280 | the same for an exclusive or |
| KitTheorems.RepeatShape | conformance/v1/kitlib.py:224-234 | the same for a repetition |
| KitTheorems.CaseShape | conformance/v1/kitlib.py:297-309 | the same for a reference, which names an answer there is |
| KitMeaning.ReferenceMeans | conformance/v1/kitlib.py:297-309 | a reference resolves to what stands at its path in the answer it names, and to nothing without that answer |
| KitMeaning.ExpressionMeans | conformance/v1/kitlib.py:207-309 | every expression built from literals, text, repetition, concatenation, padding, exclusive or and references resolves to hex for exactly the octets it means; one without references that means none is refused |
| KitRuns.ResolvedCases | conformance/v1/kitlib.py:393-405 | the loop resolves each case over the committed answers before it |
| KitRuns.BatchAsks | conformance/v1/kitlib.py:393-405 | a batch is made exactly if every case has an answer and resolves over those before it, and asks for each under its own id for its own operation |
| KitRuns.BatchPrefix | conformance/v1/kitlib.py:393-405 | later cases never change the requests of earlier ones |
| KitRuns.ResolvedOverAll | conformance/v1/kitlib.py:393-405 | with distinct ids every case resolves over the answers of the whole kit as it did over the earlier ones |
| KitRuns.WriteMode | scripts/update-conformance-vectors.py:78-88 | the loop issues each request over the responses just received |
| KitRuns.ReadResponse | conformance/v1/kitlib.py:408-428 | accepts exactly what is shaped as a response to the request, and takes its id away |
| KitRuns.AcceptedExactly | conformance/v1/kitlib.py:408-428 | a response is accepted exactly if it is a result or an error of two texts, with the id of its request, which is taken away |
| KitRuns.NeverPinned | conformance/v1/kitlib.py:408-428 | no stored response is pinned by the comparison of check mode |
| KitRuns.RunAdapter | scripts/update-conformance-vectors.py:47-68 | a batch gives the accepted responses in order, or fails on the first that is not |
| KitRuns.CheckMode | scripts/update-conformance-vectors.py:89-109 | reports exactly the ids whose committed answers differ from the adapter's as Python compares them |
| KitRuns.MismatchesNone | scripts/update-conformance-vectors.py:104-109 | nothing is reported if and only if every committed answer is the response once truth values and numbers are written as their amounts |
| KitRuns.MismatchesSay | scripts/update-conformance-vectors.py:104-109 | an id is reported exactly if a case under it has an answer that is not the response to it |
| KitRuns.CheckPins | scripts/update-conformance-vectors.py:104-109 | no response but the committed answer passes for it if and only if the answer holds no truth value and no number with a whole value |
| KitRuns.TrueForOne | scripts/update-conformance-vectors.py:104-109 | a committed truth value passes for the number one |
| KitRuns.WrittenChecks | scripts/update-conformance-vectors.py:71-109 | after a write, check mode issues the same requests, receives the same responses and finds no mismatch, from any state of the answers |
| KitRuns.WriteThenCheck | scripts/update-conformance-vectors.py:71-124 | for every adapter and every list of cases, check mode reports nothing about what write mode stored |
| KitFiles.LoadDocument | conformance/v1/kitlib.py:360-389 | accepts the cases of a document exactly when, after those before them, they are well formed, distinct and not too many |
| KitFiles.GoodCasesExact | conformance/v1/kitlib.py:360-389 | what the ids, purposes, operations and arguments of the cases must be, and how many there may be |
| KitFiles.CaseReadsExact | conformance/v1/kitlib.py:360-368 | a value is read as a case exactly if it is that case written out |
| KitFiles.DocumentReadsExact | conformance/v1/kitlib.py:351-359 | a document is read as some cases exactly if it holds them written out, for version 1 and the profile |
| KitFiles.LoadCases | conformance/v1/kitlib.py:335-390 | loads exactly the lists of safe, distinct paths to documents of the right shape whose cases are good, in declared order |
| KitFiles.LoadKit | conformance/v1/kitlib.py:312-390 | the same for the paths of metadata of the supported format and profile |
| KitFiles.LoadableExact | conformance/v1/kitlib.py:335-390 | a kit loads exactly if its files are below one directory, none is listed twice, all can be read and their cases are good |
| KitFiles.KitReadsExact | conformance/v1/kitlib.py:315-334 | metadata lists some paths exactly if it is written so, for version 1 of the format and the one profile |
| KitFiles.DocumentReads | scripts/update-conformance-vectors.py:115-118 | a document given other cases is read back with those cases |
| KitFiles.StoreCases | scripts/update-conformance-vectors.py:111-119 | the loop with a running offset writes into each document as many cases as it had |
| KitFiles.StoredFlattens | scripts/update-conformance-vectors.py:111-119 | cases cut up by the old counts come back in order when the files are read again |
| KitFiles.StoredView | scripts/update-conformance-vectors.py:111-119 | the documents written hold the cases that cutting up the list gives |
| KitFiles.WrittenKitChecks | scripts/update-conformance-vectors.py:71-124 | a kit that loads is written, loads again as the same cases with the new answers, and checks clean |
| Pcapng.BuildPcap | scripts/build-conformance-kit.py:64-82 | appending block after block gives the capture |
| Pcapng.CaptureExists | scripts/build-conformance-kit.py:53-82 | a capture is built if and only if every packet and every timestamp fits its fields |
| Pcapng.FrameReads | scripts/build-conformance-kit.py:53-61 | a reader finds each block's kind and body between equal lengths and goes on exactly behind it |
| Pcapng.CaptureReads | scripts/build-conformance-kit.py:64-82 | walking the capture consumes it exactly, in whole words, and recovers the packets and their split timestamps in order |
| Localization.FlattenScan | scripts/localization.py:299-318 | cutting a text into placeholders and characters loses nothing |
| Localization.ScanFlatten | scripts/localization.py:392-404 | clean pieces written out are read back as the same pieces |
| Localization.FormatSignature | scripts/localization.py:299-318 | gives the sorted argument slots, or fails exactly on a percent sign that starts no placeholder |
| Localization.FormatMessage | scripts/localization.py:662-684 | the renderer with its running position |
| Localization.DesktopFormat | apps/desktop/ui/localization.js:75-92 | the desktop renderer, counting positions from zero |
| Localization.IsolateAndroidPlaceholders | scripts/localization.py:392-404 | every text placeholder is put between isolates and nothing else changes |
| Localization.AndroidAgrees | scripts/localization.py:392-404 | for every validated template and argument list, plain substitution into the isolated template, scanned afresh, succeeds exactly when the renderer does, whatever the printers; it gives the same string where they print alike what the signature uses |
| Localization.DesktopAgrees | apps/desktop/ui/localization.js:75-92 | the desktop renderer succeeds exactly when the scripts' does and no integer slot gets an unsafe integer, whatever the printers; it gives the same string where they print alike what the signature uses |
| Localization.DesktopIntegers | apps/desktop/ui/localization.js:83-89 | the desktop shows an integer exactly if it is within the safe range |
| Localization.FlagsDecide | apps/desktop/ui/localization.js:82-90 | with printers that part only on truth values, both give the same string if and only if no truth value is shown as text |
| Localization.FlagDiffers | apps/desktop/ui/localization.js:90 | a truth value under a text placeholder is written differently |
| Localization.RendersIffFilled | scripts/localization.py:662-684 | a template renders exactly when every slot can be filled |
| Localization.SignatureDecides | scripts/localization.py:357-370 | templates with equal signatures accept exactly the same argument lists, on every platform |
| TemplateMeaning.TemplateMeans | scripts/localization.py:662-684 | on every platform a numbered placeholder renders to the argument of that number, the k-th other one to the k-th argument, a doubled percent sign to one, and every other character to itself |
| TemplateMeaning.SignatureMeans | scripts/localization.py:299-318 | the slots of a template are the arguments that its parts take, in order, and it passes validation |
| TemplateMeaning.SignatureSorted | scripts/localization.py:299-318 | the signature has exactly those slots, by rising position |
| TemplateMeaning.EveryTemplate | scripts/localization.py:299-318 | every template that passes validation is written from such parts |
| TemplateMeaning.RenderConcat | scripts/localization.py:662-684 | rendering two stretches is rendering the one and then the other, from the position the first leaves |
| ArchiveDigest.CopyPayload | scripts/release-evidence.py:187-209 | the chunk loop feeds every digest the declared number of octets, however they are handed out, or reports that they ran out |
| ArchiveDigest.UpdateFramedMember | scripts/release-evidence.py:187-209 | succeeds exactly when the member has its declared size, and then every digest grows by one frame |
| ArchiveDigest.FrameLayout | scripts/release-evidence.py:196-200 | a frame says in its first eight octets, most significant first, how many follow |
| ArchiveDigest.NormalizedZip | scripts/release-evidence.py:212-256 | succeeds exactly on acceptable archives, with the streams that are hashed |
| ArchiveDigest.AcceptableExact | scripts/release-evidence.py:212-241 | an archive is acceptable exactly if it is within its limits and its files are safely and differently named, no links, not encrypted and of their declared size |
| ArchiveDigest.NameOfPlain | scripts/release-evidence.py:228-229 | the name of a path without empty parts and dots is the path, and naming changes nothing twice |
| ArchiveDigest.SignatureNames | scripts/release-evidence.py:243-246 | the signature files are exactly those under META-INF with one of five suffixes |
| ArchiveDigest.FrameInjective | scripts/release-evidence.py:187-209 | a frame at the head of a stream determines its content and what follows |
| ArchiveDigest.StreamInjective | scripts/release-evidence.py:212-256 | equal streams come from equal lists of NUL-free names and payloads |
| ArchiveDigest.CompleteDetermines | scripts/release-evidence.py:212-256 | archives with the same complete stream hold the same files with the same content |
| ArchiveDigest.UnsignedDetermines | scripts/release-evidence.py:212-256 | archives with the same unsigned stream hold the same files apart from signatures |
| ArchiveDigest.CompleteDeterminesUnsigned | scripts/release-evidence.py:212-256 | equal complete streams imply equal unsigned streams |
| ArchiveDigest.OrderIrrelevant | scripts/release-evidence.py:212-256 | the order of members changes neither acceptance nor either stream |
| ArchiveDigest.SignaturesIrrelevant | scripts/release-evidence.py:212-256 | archives that differ only in signature files have the same unsigned stream |
| TarDigest.DigestTarMember | scripts/release-evidence.py:273-298 | one member is refused, passed over or fed as one frame, exactly as its name, kind and size demand |
| TarDigest.NormalizedTar | scripts/release-evidence.py:259-303 | succeeds exactly on acceptable tar archives, with the stream that is hashed |
| TarDigest.AcceptableTarExact | scripts/release-evidence.py:259-291 | a tar archive is acceptable exactly if it is within its limits and its members are safely and differently named, directories or files of their declared size |
| TarDigest.TarStreamInjective | scripts/release-evidence.py:259-303 | equal tar streams come from equal names, permission bits and payloads |
| TarDigest.TarDetermines | scripts/release-evidence.py:259-303 | tar archives with the same stream hold the same files with the same permissions and content |
| TarDigest.TarOrderIrrelevant | scripts/release-evidence.py:259-303 | the order of members changes neither acceptance nor the stream |
| Reproducibility.ValidatedRows | scripts/release-evidence.py:341-386 | accepts exactly the rows with safe, distinct paths, sizes, modes and digests as prescribed, within the limits on their number and on their sum, which the loop checks as it goes |
| Reproducibility.ValidRowsExact | scripts/release-evidence.py:352-386 | what path, size, mode and digest of every row must be, and how many rows and octets there may be |
| Strings.BelowSpelled | scripts/release-evidence.py:362-372 | a path passes exactly if it is the root and then plain parts, each behind a slash |
| Reproducibility.CompareEvidence | scripts/release-evidence.py:1820-1918 | exactly two valid builds of one revision give a report, with one row for every path of either manifest and counts that agree with them |
| Reproducibility.ComparingExact | scripts/release-evidence.py:1823-1848 | exactly documents of the one schema about the same complete revision, with valid rows, are compared |
| Reproducibility.CommonFieldExact | scripts/release-evidence.py:1874-1882 | two records have a field in common exactly if they agree in scheme and in that field, the unsigned digest first |
| Reproducibility.ComparisonSays | scripts/release-evidence.py:1849-1905 | for every path of either manifest the report has a row that says whether both list it, with which digests, and which one does if not |
| Reproducibility.TallyCounts | scripts/release-evidence.py:1004-1096 | the summary counts the rows by status |
| Reproducibility.CheckRows | scripts/release-evidence.py:1004-1096 | accepts exactly rows with distinct known paths and sufficient evidence, and counts them |
| Reproducibility.RowsExact | scripts/release-evidence.py:1010-1096 | rows are accepted exactly if each is about an artifact, no two about the same, and carries its digest, names it among two files with scheme, field and digest or with a reason and evidence, or admits a difference or an absence |
| Reproducibility.ForeignDigestRefused | scripts/release-evidence.py:1025-1027 | a record with an exact row of another digest than the artifact's is refused, whatever else it holds |
| Reproducibility.ValidateRecord | scripts/release-evidence.py:990-1145 | accepts exactly the valid reports about the revision, with complete evidence and two builders where they claim independence, and says whether they do |
| Reproducibility.IndependentAccounts | scripts/release-evidence.py:1104-1145 | a record accepted as independent has one row for every artifact, which carries its digest, shares one with it after normalization or gives a reason and evidence; it names two builders and a report on https |
| Reproducibility.ComparisonValidates | scripts/release-evidence.py:1820-1922 | a comparison report is valid for the first manifest if and only if the manifests are comparable |
| Reproducibility.AbsentFieldsAgree | scripts/release-evidence.py:1874-1882 | two records of one scheme without an unsigned digest are reported as equal, with no digest in the row |
| Reproducibility.ZipRecordsShare | scripts/release-evidence.py:212-256 | records that carry both digests, as ZIP records do, always satisfy the condition |
| ArchiveEvidence.NormalizedZipsMatch | scripts/release-evidence.py:212-256 | ZIP artifacts with the same files apart from signatures are reported as normalized, and those so reported have them, or two named streams collide |
| ArchiveEvidence.TarsAlwaysNormalized | scripts/release-evidence.py:1874-1882 | any two tar artifacts are so reported, with no digest in common |
| ReleaseSigning.Cover | scripts/release-signing.py:162-178 | one more artifact extends known digests, digests by role and covered classes by exactly what it adds |
| ReleaseSigning.ClassifiedArtifacts | scripts/release-signing.py:126-179 | succeeds exactly when every artifact is well formed, named once and in one class, and tabulates their digests |
| ReleaseSigning.FileNameSpelled | scripts/release-signing.py:149-160 | the file name is what stands behind the last slash |
| ReleaseSigning.ContainsSpelled | scripts/release-signing.py:156-160 | a class is in a file name exactly if its id between hyphens is, with something before and behind |
| ReleaseSigning.RoleSpelled | scripts/release-signing.py:156-172 | an artifact has the role of a class exactly if its file name names that class and no other |
| ReleaseSigning.CheckRoles | scripts/release-signing.py:261-305 | the loop over roles gives their summary and the verified ones, or fails on a row that does not list what is expected |
| ReleaseSigning.Validate | scripts/release-signing.py:225-323 | accepts exactly the records bound to the manifest file and revision that are sound over the coverage of the manifest |
| ReleaseSigning.BoundExact | scripts/release-signing.py:232-245 | a record is bound to a manifest file by name and digest, and all are about one complete revision, the expected one if any |
| ReleaseSigning.PolicyExact | scripts/release-signing.py:73-123 | a policy is read exactly if its roles are named and differ, and its classes and channels refer to them |
| ReleaseSigning.AcceptedCovers | scripts/release-signing.py:246-323 | on a channel other than validation that requires artifact roles, every artifact is in exactly one class, a verified row of its role lists its digest, and no verified platform role lists a foreign one |
| ReleaseSigning.AcceptedShows | scripts/release-signing.py:257-323 | in an accepted record the rows follow the roles, verified ones show key, evidence and verifier, the manifest role lists exactly all digests, the roles of the channel are verified and the summary accounts for every row |
| ReleaseSigning.AcceptedItems | scripts/release-signing.py:136-172 | the artifacts of an accepted record are safe, different paths with digests, and outside validation each is in a format of a class it names |
| ReleaseSigning.StableCoversClasses | scripts/release-signing.py:252-256 | a stable record means every class of the policy has an artifact |
| ReleaseSigning.Prepare | scripts/release-signing.py:182-222 | prepares a record, bound to the manifest and with every role open, exactly for a valid policy, revision and manifest |
| ReleaseSigning.PreparedAccepted | scripts/release-signing.py:182-222 | a record as prepared passes if and only if the channel requires nothing of the manifest |
| ReleaseSigning.PreparedNotStable | scripts/release-signing.py:182-222 | where stable requires artifact roles, no prepared record is a stable release |
| Licences.PolicyExpression | scripts/android-license-evidence.py:200-212 | an override or the first matching rule |
| Licences.CheckExpression | scripts/check-release-engineering.py:288-313 | an override or a longest matching rule |
| Licences.MatchesParts | scripts/check-release-engineering.py:288-313 | a rule is about the groups whose dotted name starts with all the parts of its own |
| Licences.CheckedMeans | scripts/check-release-engineering.py:288-313 | a loaded policy gives a licence exactly if an override does, or there is none and the longest rule about the group does |
| Licences.FirstIsLongest | scripts/android-license-evidence.py:197-212 | in rules sorted by falling length the first match is a longest one |
| Licences.LongestUnique | scripts/android-license-evidence.py:155-170 | with distinct prefixes at most one rule is longest |
| Licences.ResolversAgree | scripts/check-release-engineering.py:288-315 | for every policy that loads and every coordinate the two resolvers agree, and resolve nothing exactly when nothing is about it |

## Left out

- The rest of the desktop client (rendering, modals, calls, contacts, folders): user interface over a backend.
- The Rust cryptography itself (X25519, Ed25519, SHA-256, key derivation, anonymous boxes): library wrappers, entered here as functions.
- ZIP, tar, gzip, JSON and regular expression libraries: their results are modelled, not how they get them.
- Files, subprocesses, time limits and output limits of the scripts.
- The search for secrets in public records (`scripts/release-signing.py:50-70`, `scripts/release-evidence.py:129-150`): no record is refused for the names of its fields, for long lists or for private keys in its texts.
- ReleaseSigning.Validate: takes the expected revision in lower case, and the record as its known fields; it does not model the search for secrets in the record.
- Reproducibility.ValidateRecord: blank means ASCII white space only, the report's address is given as the library takes it apart, and the search for secrets in the record is not modelled.
- Reproducibility.CompareEvidence: takes manifests as their typed fields; the search for secrets in them is not modelled, and neither is the option that fails on rows that are not exact or normalized.
- KitFiles and JsonValues: strings are sequences of Unicode scalar values and numbers are exact, so lone surrogates, rounding and overflow of floating point, and the interpreter's limit on the number of digits it converts are not modelled.
- Localization: number formatting by locale is part of the printers; templates are scanned piece by piece instead of by a regular expression with a cursor.
- Recorder: rounding of 32-bit and 64-bit floating point, sample rates that are not integers, and the timer that stops a recording.
- Licences: licence expressions and custom licence definitions are only required not to be empty, because resolution does not look inside them.
- MentionComposer.Composer.FinishSubmit: sending and emptying the box are one step, so typing while the message itself is being sent is not modelled, nor are failures of the backend; a group is taken to be open when the answer arrives.
- MentionRuns.RunCovers: a pick or a token click while the box and the draft disagree is not part of the runs; `ScheduledThenToken` and `ScheduledThenPick` say what happens then.
- SBOM building, POM search, Android and iOS output files, readiness and qualification records, documentation checks: not modelled.
