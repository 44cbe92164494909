# Verified models of go-iroh's experiments

Dafny models of the protocols built on iroh streams, documents and gossip, and
proofs about whole runs of them: a transparency log with witnesses, a DAG
synchronisation protocol, collective operations, a payment ledger and an
attestation handshake.  `dafny verify dfyconfig.toml` checks everything.

**The transparency log (`tlogiroh`).**  An operator appends records and signs
checkpoints; witnesses cosign consistent growth; clients accept a checkpoint
with the operator's signature and enough cosignatures, and keep a head.
`Merkle` writes out RFC 6962 (sections 2.1, 2.1.1 and 2.1.2) over symbolic
hashes and shows what its two proofs mean.  `Lines`, `Decimal`, `Notes`,
`Checkpoints`, `Merging`, `Wire` and `Equivocations` are the formats.
`Policies`, `Clients` and `Witnesses` are the participants, `Cosigners` is a note
that goes from witness to witness, `SplitView` all of them together on an
untrusted network.  `Watching` and `Serving` are the two event loops;
`Announcements` and `Responses` say what each makes of what it is sent.  `StoredHashes`, `Tiles`, `Timeline`, `PublishedLogs`, `Operators`,
`Readers` and `Provable` are the operator and what a reader finds in its
timeline.  `LongNotes` and `Forks` have the runs in which a promise fails.

**DAG synchronisation (`dagsync`).**  `Dags` has CIDs, links and tables,
`Traversals` the depth-first walk, `Syncs` the sender and the receiver, and
`Lockstep` what they guarantee together and apart.

**Collectives (`dtrain`).**  `Vectors` has the reduction, `Rounds` one reduction
or gather as interleaved steps of n ranks, `Groups` the member's own loops, and
`Collectives` ties the two together.

**Payments and attestation.**  `Ledgers` is the `x402iroh` ledger; `Handshakes`
and `Agreements` are the `enclaveiroh` handshake, one session and many.

## How things are modelled

- A method that runs with a mutex held is one atomic step.  Classes carry the
  fields the Go types update; each method is tied to a function on values, and
  the lemmas about whole runs are about these functions.
- Hashes are an injective datatype and signatures name their key and text.  In
  `SplitView` and `Agreements` the network delivers any message in any order,
  any number of times or never, as long as it holds no signature by an honest
  key that was not made.
- A text is a sequence of symbols.  A base64 block of a hash or of a signature
  is one symbol, and lengths count symbols.
- What a call reads from the source (a consistency or audit path, a blob, or
  nothing) is a parameter with any value; so are the clock, the frames a peer
  sends and the messages gossip delivers.

## What the code does not do

- A head note that collected more than 100 signature lines no longer opens.  So
  an equivocation found against it is reported with a proof that does not
  verify, and the note does not restore the head.  `LongNotes` has a run;
  `Clients.ReportedEquivocationVerifies`, `Clients.HeadNoteRestores` and
  `Witnesses.WitnessEquivocationVerifies` have the exact condition.
- A witness whose key name holds a control character, or that has the operator's
  key id with another key, spoils the note it cosigns
  (`Witnesses.CosignedIsEvidence`).  In the same way an operator whose origin or
  key name holds a control character publishes notes that nobody can open
  (`Provable.PublishedOpensExactly`).
- `ParseCheckpoint` accepts a size with a sign, as in "+5", "+05" or "-0", and
  so a text that is not what the checkpoint prints as; it does so exactly when the
  size line does not start with a digit (`Checkpoints.MarshalParseExactly`).
- `SetHead` takes a larger checkpoint without a consistency proof.  It is
  append-only for a size exactly if that is the head's own, or the head is empty
  (`Forks.SetHeadExtendsExactly`); so the append-only results are about runs of
  `Update`, and the split-view result covers both.
- A proof whose length prefix is padded is another string of bytes for the same
  proof, so both event loops broadcast it again (`Watching.PaddedProofRepeats`,
  `Serving.PaddedProofServedAgain`).  Bytes other than a proof's own encoding are
  the only way: see `Watching.NoProofTwiceExactly` and `Watching.EachProofOnce`.
- A DAG receiver treats the end of the stream as success at every header
  (`Lockstep.CutIsNotNoticed`), and loses step with a sender that leaves out data
  the walk depends on; `Lockstep.InStepExactly` and `Lockstep.DecidedBySender`
  say exactly when.
- `CIDsForHash` keeps listing a CID under a hash it no longer has, exactly after a
  Put that changes its hash (`Dags.PutKeepsRevExactly`).
- A collective's call is dropped but answered if and only if it arrives while its
  callee is not in its loop (`Rounds.DroppedExactly`, `Rounds.DropsExactly`).  If
  that is because the callee has not published yet, the caller can return
  (`Rounds.CallerReturnsCalleeDoesNot`), but the callee never does
  (`Rounds.DroppedForGood`, `Rounds.ReadyForEveryCall`).
- The ledger keeps spent nonces as strings, so the same 32 bytes spelled with
  another case or without 0x settle once more if the payer signs them again
  (`Ledgers.RespelledPassesExactly`, `Ledgers.PlainNoncesSettleOnce`).
- The ledger's bound on the validity window is lost when the seconds overflow an
  int64 inside `time.Unix` (`Ledgers.TooLongExactly`).

## Model

| member | source | states |
|---|---|---|
| `Merkle.TreeHashInjective` | tlogiroh/doc.go:3-6 | Two lists of records with one RFC 6962 root (section 2.1) are the same list |
| `Merkle.CheckRecordExactly` | tlogiroh/client.go:167-173 | Some audit path (section 2.1.1) convinces the client's CheckRecord exactly when the head commits to that leaf at that index |
| `Merkle.AuditPathAccepted` | tlogiroh/client.go:167-173 | The audit path read off a head is accepted |
| `Merkle.LeafAtOfTree` | tlogiroh/client.go:167-173 | The head of a list of records commits to exactly those records, each at its index |
| `Merkle.CheckTreeExactly` | tlogiroh/client.go:117-127 | Some consistency proof (section 2.1.2) convinces CheckTree exactly when the smaller root is the root of a prefix of the larger tree |
| `Merkle.ConsistencyProofAccepted` | tlogiroh/client.go:117-127 | The SUBPROOF of a larger head rebuilds both the smaller and the larger root |
| `Merkle.ConsistentIffPrefix` | tlogiroh/client.go:117-127 | For roots of records, acceptance by CheckTree is the prefix order on the lists, both ways |
| `Merkle.PrefixTransitive` | tlogiroh/witness.go:72-92 | Accepted growth steps compose: a prefix of a prefix is a prefix, with the empty tree a prefix of everything |
| `Merkle.PrefixesComparable` | tlogiroh/witness.go:72-92 | Two prefixes of one tree are comparable with each other |
| `Merkle.PrefixKeepsLeaves` | tlogiroh/client.go:158-175 | A head commits to the same leaf as any head it is a prefix of, at every index it has |
| `Notes.AssembleParts` | tlogiroh/checkpoint.go:82-88 | A message made of a clean text and well-formed signature lines comes apart into exactly these |
| `Notes.PartsAssemble` | tlogiroh/checkpoint.go:82-88 | Every message that a note can be read from is put together in that way |
| `Notes.OpenLinesExactly` | tlogiroh/policy.go:57-63 | note.Open succeeds exactly when a known key occurs and the first line of every known key that occurs verifies; its verified lines are exactly these first lines |
| `Notes.SignatureInMessage` | tlogiroh/policy.go:71-74 | A signature that counts is physically in the message |
| `Checkpoints.ParseMarshal` | tlogiroh/checkpoint.go:45-78 | Parsing undoes printing for every checkpoint that can be printed |
| `Checkpoints.MarshalParseExactly` | tlogiroh/checkpoint.go:45-78 | Printing undoes parsing of a text exactly when its size line starts with a digit |
| `Checkpoints.SignedSizesParse` | tlogiroh/checkpoint.go:67-73 | "+5" and "-0" are accepted as sizes, for every origin and hash |
| `Checkpoints.CheckpointTextHasNoBlank` | tlogiroh/checkpoint.go:57-78 | A text that parses as a checkpoint has no blank line in it |
| `Merging.MergeSignedNotes` | tlogiroh/checkpoint.go:94-118 | The in-place merge loop computes the merge that the lemmas below are about, and refuses exactly when the texts differ or a part is malformed |
| `Merging.SplitAgreesWithOpen` | tlogiroh/checkpoint.go:80-88 | For a message whose text is a checkpoint, cutting at the first blank line gives the text that note.Open sees after cutting at the last |
| `Merging.MergedParts` | tlogiroh/checkpoint.go:90-118 | The merge carries the lines of both notes in order, each once |
| `Merging.MergeAccumulates` | tlogiroh/checkpoint.go:90-118 | If two notes on one checkpoint text each open, their merge opens (up to the line cap) with the union of their verified keys and no line twice |
| `Wire.ReadUvarintWritten` | tlogiroh/equivocation.go:46-52 | Reading a written length gives the number and its size, whatever follows |
| `Wire.FieldInjective` | enclaveiroh/claim.go:85-88 | No content of a length-prefixed field can shift the boundary to what follows |
| `Wire.FieldsInjective` | x402iroh/scheme.go:46-56 | Equally many length-prefixed fields: equal bytes mean equal fields |
| `Wire.ReadPadded` | tlogiroh/equivocation.go:46-52 | A length written with one byte more than it needs reads as the same number |
| `Equivocations.UnmarshalMarshal` | tlogiroh/equivocation.go:18-44 | Decoding undoes encoding for every proof |
| `Equivocations.MarshalIsCanonical` | tlogiroh/equivocation.go:18-44 | What encoding gives is, if it decodes at all, the encoding of what it decodes to, over-long lengths included |
| `Equivocations.PaddedDecodes` | tlogiroh/equivocation.go:27-52 | Every proof has a second encoding, one byte longer, that decodes to it |
| `Equivocations.OpensForOperator` | tlogiroh/equivocation.go:78-91 | A note that opens under a policy that requires the operator opens under the operator's key alone |
| `Equivocations.ConflictVerifies` | tlogiroh/equivocation.go:57-73 | Two conflicting signed checkpoints make a proof that verifies exactly when both notes have at most 100 signature lines |
| `Equivocations.VerifiesExactly` | tlogiroh/equivocation.go:54-91 | A proof verifies if and only if the operator signed, in its two messages, checkpoints of this log with one size and different hashes, and both have at most 100 signature lines |
| `Policies.KeyStringInjective` | tlogiroh/policy.go:90-92 | The printed key id determines key name and hash, whatever the name contains |
| `Policies.NewPolicy` | tlogiroh/policy.go:26-48 | A policy is made exactly when origin, verifiers and threshold are sound and all key ids are distinct, and then it holds what was given |
| `Policies.Open` | tlogiroh/policy.go:53-88 | The counting loops compute PolicyOpen |
| `Policies.PolicyOpenExactly` | tlogiroh/policy.go:50-88 | Open accepts exactly the notes over this log's checkpoint that carry valid signatures of the operator and of k listed witnesses, within the line cap |
| `Policies.ThresholdMeansSigned` | tlogiroh/policy.go:75-86 | A note that fails only the threshold is validly signed by the operator and is of this log |
| `Policies.BelowThresholdExactly` | tlogiroh/policy.go:75-86 | Open complains about the threshold exactly for a note of this log within the line cap that the operator signed, whose known lines are all valid, and that carries fewer than k listed witnesses |
| `Policies.MergeMeetsPolicy` | tlogiroh/policy.go:71-86 | The merge of two notes meets the policy exactly when the union of their signers does and it stays within the line cap |
| `Policies.MergeKeepsAccepted` | tlogiroh/client.go:112-115 | Merging an accepted note with another over its text never loses acceptance, the line cap aside |
| `Clients.Client.SetHead` | tlogiroh/client.go:65-82 | The whole new state and result: refuses rollback and conflict, otherwise takes the head without a consistency proof; the stored note stays one that the policy accepts |
| `Clients.Client.Update` | tlogiroh/client.go:89-132 | The whole new state and result in every branch; the stored note stays one that the policy accepts, the line cap aside |
| `Clients.Client.Advance` | tlogiroh/client.go:104-132 | The head update of an already verified checkpoint: rollback, conflict, merge, stale source, failed proof, growth |
| `Clients.Client.Entry` | tlogiroh/client.go:147-175 | What an entry read returns for any answers of the source |
| `Clients.SetHeadAnswers` | tlogiroh/client.go:65-82 | Of the messages that the policy accepts SetHead refuses exactly a smaller tree, as a rollback, and another tree of the same size, as that equivocation; it takes all others, and keeps the head when it refuses |
| `Clients.UpdateAnswers` | tlogiroh/client.go:89-132 | Of the messages that the policy accepts Update takes exactly the same tree and growth that is proved or from nothing; each refusal has its own error and keeps the head, and the same tree again leaves a note with the signers of both |
| `Clients.EntryAnswers` | tlogiroh/client.go:147-175 | A blob can be read as an entry, with some proof, exactly if the head commits to it there; out of range, unavailable and no checkpoint are told apart |
| `Clients.UpdateKeepsValid` | tlogiroh/client.go:89-132 | Update keeps the stored head a checkpoint that its stored note proves |
| `Clients.HeadNoteRestores` | tlogiroh/client.go:55-82 | SetHead of the stored note restores the head exactly when the note has at most 100 signature lines |
| `Clients.ReportedEquivocationVerifies` | tlogiroh/client.go:109-112 | Every equivocation reported by SetHead or Update carries a proof that verifies exactly when the head note has at most 100 signature lines, and survives encoding |
| `Clients.ReportedIsRealConflict` | tlogiroh/client.go:65-112 | Every reported equivocation is of two checkpoints of one size and different hashes that the operator signed |
| `Clients.UpdateExtends` | tlogiroh/client.go:104-132 | The head tree that Update leaves extends the one it found |
| `Forks.SetHeadExtendsExactly` | tlogiroh/client.go:65-82 | For each size from the head's on: every message of that size that SetHead accepts leaves an extension of the head, if and only if that is the head's own size or the head is of the empty tree |
| `Forks.OwnSizeExtends` | tlogiroh/client.go:65-82 | An accepted message of the head's own size leaves the same tree |
| `Forks.SetHeadForks` | tlogiroh/client.go:65-82 | From any other head there is, for every larger size, an accepted message that leaves a tree which does not extend it |
| `Clients.RunIsAppendOnly` | tlogiroh/client.go:84-132 | Over every run of Update, on any messages and any source, each head is a prefix of every later one |
| `Clients.EntriesNeverChange` | tlogiroh/client.go:144-175 | A record read at one head is the record read at every later head of the run |
| `Clients.EntriesStayProvable` | tlogiroh/client.go:144-175 | A record the head commits to can still be proved against every later head |
| `LongNotes.MergedIsLong` | tlogiroh/checkpoint.go:94-118 | Two acceptable notes whose merge has more than 100 signature lines |
| `LongNotes.LongHeadReports` | tlogiroh/client.go:109-115 | A conflict with a head note over the line cap is reported with a proof that fails to verify |
| `LongNotes.ReportedProofMayNotVerify` | tlogiroh/client.go:109-115 | A concrete run of three updates, each note within the cap, that ends in such a report |
| `Witnesses.Witness.Cosign` | tlogiroh/witness.go:60-103 | The whole new state and result in every branch, which Witnesses.CosignAnswers and Cosigners.CosignedCarries describe; the trees ever signed stay one prefix chain that ends at the head |
| `Witnesses.CosignAnswers` | tlogiroh/witness.go:60-102 | A witness signs exactly the same tree again, growth that is proved and growth from nothing, of any note the operator signed, if its own name is a key name; each refusal has its own error, and the head moves only with a signature |
| `Cosigners.CosignedCarries` | tlogiroh/witness.go:93-102 | The cosigned note has the same text and carries the signers of the note it was given and the witness: the line of every other key but the operator's stays, the operator's first line stays, the witness's own verifies, and there is at most one line more |
| `Cosigners.GoesRound` | tlogiroh/witness.go:60-102 | A note that the operator signed can go round any listed witnesses whose heads let them sign, one after the other, within the line cap |
| `Cosigners.WitnessesInTurnSuffice` | tlogiroh/witness.go:60-103 | Cosigned in turn by k or more different listed witnesses, whatever it carried before, it is accepted by their policy exactly if it is within the line cap |
| `Witnesses.CosignKeepsChain` | tlogiroh/witness.go:60-103 | One more call keeps the chain |
| `Witnesses.OneWitnessOneChain` | tlogiroh/witness.go:45-103 | Over every run, of two trees one witness signed the earlier is a prefix of the later: equal sizes have equal hashes and nothing smaller is signed after something larger |
| `Witnesses.CosignedIsEvidence` | tlogiroh/witness.go:93-102 | The cosigned note is still evidence of the operator's signature exactly when the witness key has a clean name and does not pose as the operator's |
| `Witnesses.CosignKeepsEvidence` | tlogiroh/witness.go:93-102 | So the witness's stored head note stays evidence over every run |
| `Witnesses.WitnessEquivocationVerifies` | tlogiroh/witness.go:76-79 | A reported equivocation carries a proof that verifies exactly when the head note has at most 100 signature lines |
| `Witnesses.WitnessReportsConflict` | tlogiroh/witness.go:76-79 | Every equivocation a witness reports is of two checkpoints of one size and different hashes that the operator signed |
| `SplitView.NextKeeps` | tlogiroh/policy.go:71-88 | Any step of any client or honest witness keeps: every accepted checkpoint is backed by a quorum whose honest members signed it |
| `SplitView.QuorumsMeet` | tlogiroh/policy.go:26-48 | With 2k > N + f two quorums share an honest witness |
| `SplitView.BackedComparable` | tlogiroh/policy.go:71-88 | Two checkpoints with such backing are comparable |
| `SplitView.NoSplitView` | tlogiroh/policy.go:36-86 | Split-view safety: with 2k > N + f, over every run of clients and witnesses, any two checkpoints ever accepted agree at equal size, and otherwise the smaller tree is a prefix of the larger and shares all its records |
| `Watching.OpenMadeEnvelope` | tlogiroh/gossip.go:21-40 | Opening a made envelope gives back kind and payload, except for an empty payload |
| `Watching.EnvelopeBytes` | tlogiroh/gossip.go:21-40 | The bytes of an envelope of either kind, and of nothing else: one type byte and a payload that is not empty |
| `Watching.Watcher.Process` | tlogiroh/client.go:201-230 | The loop's process step on the client and the loop variables: what is parked, yielded and broadcast is as the Announcements rows say |
| `Watching.Watcher.Received` | tlogiroh/client.go:252-287 | One gossip message |
| `Watching.Watcher.ReceivedProof` | tlogiroh/client.go:257-271 | A gossiped proof is passed on once, and only if it verifies |
| `Watching.Watcher.ReceivedCheckpoint` | tlogiroh/client.go:272-286 | A gossiped checkpoint is merged with the parked one over its text, then tried |
| `Watching.Watcher.Tick` | tlogiroh/client.go:239-245 | A tick tries each parked message exactly once, in any order of the map's keys, on the state the earlier ones left |
| `Watching.OthersStayParked` | tlogiroh/client.go:201-230 | Trying one message parks, drops or changes no other, so each is still there when its turn comes |
| `Watching.CombinedText` | tlogiroh/client.go:272-286 | What is tried is filed under the text it will open with |
| `Announcements.ParksExactly` | tlogiroh/client.go:201-230 | A tried message is parked under its text exactly if it waits: it lacks nothing but cosignatures, or the policy accepts it and the source cannot prove the growth yet; otherwise nothing stays parked there |
| `Announcements.YieldsAdmitted` | tlogiroh/client.go:201-212 | A message that the policy accepts and the head can take is yielded unless it repeats the last one, becomes the head, and is no longer parked |
| `Announcements.ReportsConflict` | tlogiroh/client.go:215-223 | A conflict with the head is yielded, its proof broadcast unless it was before, and the message dropped |
| `Announcements.ProofIsReported` | tlogiroh/client.go:257-271 | A received proof that verifies is yielded each time and broadcast the first time |
| `Announcements.TwoPartsYield` | tlogiroh/client.go:272-286 | Two announcements over one text, the first short of the threshold, that meet it together and merge within the line cap, make the loop yield that checkpoint and park nothing, if the head can take it |
| `Announcements.StaleYieldsLater` | tlogiroh/client.go:213-245 | An accepted growth that the source cannot prove yet is parked, and yielded on a retry with a good proof |
| `Announcements.StaysParked` | tlogiroh/client.go:239-286 | What is parked stays as it is until an announcement or a retry over its own text |
| `Announcements.ParkedCarriesAll` | tlogiroh/client.go:272-286 | Over every run a parked note holds exactly the signature lines, and so the signers, of all that came over its text since it was first parked |
| `Announcements.CompletedIsYielded` | tlogiroh/client.go:272-286 | After any run, an announcement that completes a parked note is yielded and no longer parked |
| `Watching.NextWatchKeeps` | tlogiroh/client.go:193-288 | Any event, or any other use of the client in between, keeps the loop's invariant |
| `Watching.WatchIsSafe` | tlogiroh/client.go:193-288 | Over every sequence of events: parked messages carry a valid operator signature and are filed under their own text, yielded sizes strictly increase, no encoding of a proof is broadcast twice, and what is reported or broadcast is a conflict the operator signed, which verifies exactly when its first message is within the line cap |
| `Watching.RepeatedOnlyIfPadded` | tlogiroh/client.go:257-271 | Two broadcasts of a run decode to one proof only if one of them is not that proof's own encoding |
| `Watching.EachProofOnce` | tlogiroh/client.go:215-271 | A run in which every received proof is encoded as MarshalBinary does broadcasts each proof at most once |
| `Watching.BroadcastsAreOffered` | tlogiroh/client.go:215-271 | Over every run the broadcasts are the loop's own reports and the received proofs that verify, each string of bytes at its first occurrence |
| `Watching.NoProofTwiceExactly` | tlogiroh/client.go:215-271 | A run broadcasts no proof twice if and only if no proof was among these in two encodings |
| `Watching.RepeatsExactly` | tlogiroh/client.go:257-271 | Once a proof came in its own encoding, another encoding of it is broadcast again exactly when it is a different one |
| `Watching.PaddedProofRepeats` | tlogiroh/client.go:257-271 | Every verifying proof is broadcast twice if it comes again with its first length padded |
| `Serving.Loop.Process` | tlogiroh/witness.go:122-142 | The witness loop's process step |
| `Serving.Loop.Received` | tlogiroh/witness.go:162-185 | One gossip message |
| `Serving.Loop.ReceivedProof` | tlogiroh/witness.go:167-178 | A gossiped proof is passed on once, and only if it verifies |
| `Serving.Loop.Tick` | tlogiroh/witness.go:151-155 | A tick tries each parked message exactly once, in any order of the map's keys, on the state the earlier ones left |
| `Serving.OthersStay` | tlogiroh/witness.go:122-142 | Trying one message parks, drops or changes no other |
| `Responses.ServesAdmitted` | tlogiroh/witness.go:126-133 | A note that the witness's head lets it sign is signed, becomes the head, and is broadcast cosigned |
| `Responses.ServesStale` | tlogiroh/witness.go:134-135 | Growth that the source cannot prove yet is parked, and nothing else changes |
| `Responses.ServesConflict` | tlogiroh/witness.go:136-141 | The proof of a conflict with the head is broadcast unless it was before, and the message is dropped |
| `Responses.ServesNothing` | tlogiroh/witness.go:142-146 | A rollback, a failed proof and what does not open are dropped, and nothing else changes |
| `Responses.AnnouncedIsCosigned` | tlogiroh/witness.go:122-185 | An announcement that can be signed is broadcast with the signers it had and the witness |
| `Responses.StaleIsCosignedLater` | tlogiroh/witness.go:122-185 | One that has to wait for its proof is broadcast so on a retry with a good one |
| `Serving.NextServerKeeps` | tlogiroh/witness.go:117-187 | Any event, or any other use of the witness in between, keeps the loop's invariant |
| `Serving.ServerIsSafe` | tlogiroh/witness.go:117-187 | Over every sequence of events: parked messages carry a valid operator signature on their own text, no encoding of a proof is broadcast twice, each is a conflict the operator signed and verifies up to the line cap, and every cosigned note broadcast is evidence of what the operator signed |
| `Serving.EachProofServedOnce` | tlogiroh/witness.go:122-178 | A run in which every received proof is encoded as MarshalBinary does broadcasts each proof at most once |
| `Serving.ProofsAreOffered` | tlogiroh/witness.go:122-178 | Over every run the broadcasts are the loop's own reports and the received proofs that verify, each string of bytes at its first occurrence |
| `Serving.NoProofServedTwiceExactly` | tlogiroh/witness.go:122-178 | A run broadcasts no proof twice if and only if no proof was among these in two encodings |
| `Serving.ServedAgainExactly` | tlogiroh/witness.go:167-178 | Once a proof came in its own encoding, another encoding of it is broadcast again exactly when it is a different one |
| `Serving.PaddedProofServedAgain` | tlogiroh/witness.go:167-178 | Every verifying proof is broadcast twice if it comes again with its first length padded |
| `Timeline.KeysPrefixFree` | tlogiroh/source.go:77-94 | No timeline key is a prefix of another: equal or extending keys mean the same entry, checkpoint or tile, for all indices, sizes, levels and widths |
| `Timeline.CheckpointKeyOrder` | tlogiroh/source.go:81-83 | Checkpoint keys compare as strings the way their sizes compare |
| `Timeline.KeyLayout` | tlogiroh/source.go:77-83 | Entry and checkpoint keys are their kind and the number in twenty digits |
| `Timeline.TileKeyLayout` | tlogiroh/source.go:86-93 | A tile key has height and level before, and the width in three digits after the position |
| `Timeline.PutIsUpdateExactly` | tlogiroh/operator.go:214-220 | The insert that deletes is a plain map update exactly if no other key in the document extends the new one |
| `Timeline.PutIsUpdate` | tlogiroh/source.go:85-94 | On timeline keys the insert that deletes extending keys is a plain map update |
| `StoredHashes.SubtreeIsTreeHash` | tlogiroh/operator.go:25-31 | The hash kept for an aligned subtree is the section 2.1 hash of the records it covers |
| `StoredHashes.StoredAt` | tlogiroh/operator.go:84-98 | Every complete aligned subtree's hash is in the stored list, at the index the library computes for it |
| `StoredHashes.IndexInRange` | tlogiroh/operator.go:223-234 | That index is in range |
| `StoredHashes.CoverGivesRoot` | tlogiroh/operator.go:127-130 | Joining the stored hashes of the covering subtrees gives the section 2.1 hash of all records |
| `Tiles.NewTiles` | tlogiroh/operator.go:116-117 | The new tiles are exactly the tiles of the new size that the old size does not have |
| `Tiles.TileDataOfLonger` | tlogiroh/operator.go:116-126 | Appending records does not change a tile |
| `Tiles.ReaderAsksForTiles` | tlogiroh/source.go:149-162 | Every tile that a reader of a tree looks a hash up in is one of that tree's own tiles |
| `Tiles.TilesHoldEveryHash` | tlogiroh/source.go:164-170 | Every subtree hash a proof is made of can be joined from one of the tree's tiles |
| `Readers.ProveRecord` | tlogiroh/client.go:166-173 | The record proof that the library assembles from single hashes, if these are the log's, is accepted for every record |
| `Readers.ProveTree` | tlogiroh/client.go:118-127 | The tree proof that it assembles is accepted for every earlier size |
| `PublishedLogs.PutKeepsTimeline` | tlogiroh/operator.go:214-220 | Putting one item keeps the document exactly the log's timeline, although inserts delete |
| `PublishedLogs.Source.ReadTiles` | tlogiroh/source.go:149-162 | Succeeds exactly when every asked tile is there with its exact width, and returns them |
| `PublishedLogs.Source.LatestCheckpoint` | tlogiroh/source.go:114-132 | Returns what the largest checkpoint key leads to; none exactly without one |
| `Operators.BlockStep` | tlogiroh/operator.go:86-93 | A completed subtree is joined from its stored left neighbour and the one completed before it |
| `Operators.Operator.ReadHashes` | tlogiroh/operator.go:223-234 | Fails exactly on an index out of range |
| `Operators.Operator.NewHashes` | tlogiroh/operator.go:84-93 | The hashes a record adds; no read is out of range |
| `Operators.Operator.Append` | tlogiroh/operator.go:84-98 | Never fails; the stored hashes and the timeline stay those of all records |
| `Operators.Operator.RootHash` | tlogiroh/operator.go:127-130 | The signed root is the section 2.1 hash of all records |
| `Operators.Operator.WriteTiles` | tlogiroh/operator.go:114-126 | Every tile of the current size is written, and no other is added |
| `Operators.Operator.Publish` | tlogiroh/operator.go:114-147 | Returns the note over exactly the appended records; fails exactly when the signer's name is no key name, and then only tiles were added |
| `Operators.AppendKeeps` | tlogiroh/operator.go:84-98 | Appending keeps hashes, timeline and published checkpoints right |
| `Operators.CheckpointKeeps` | tlogiroh/operator.go:114-147 | Publishing keeps them right |
| `Provable.OldCheckpointsProvable` | tlogiroh/operator.go:114-147 | For every size ever published, every hash its proofs need is served from a tile under its own key, with its exact width, and is the section 2.1 hash of the records it stands for |
| `Provable.OwnEntriesRead` | tlogiroh/client.go:158-175 | A client with any published head reads every entry of it from the operator's timeline, with the proof it assembles from the tiles there |
| `Provable.OwnUpdatesAdvance` | tlogiroh/client.go:117-131 | And it moves from any published head to any larger one |
| `Provable.OldEntriesProvable` | tlogiroh/operator.go:84-147 | Every record of a published size is served under its key and provable in that size's root |
| `Provable.PublishedSizesConsistent` | tlogiroh/operator.go:114-147 | Any two published sizes have a consistency proof between them |
| `Provable.LatestIsLastPublished` | tlogiroh/source.go:112-132 | The lexicographically largest checkpoint key leads to the last published, largest checkpoint |
| `Provable.PublishedOpensExactly` | tlogiroh/operator.go:42-46 | A published note opens under the operator's key exactly when origin and key name hold no control character, which NewOperator does not check |
| `Dags.NodeLinksAreTheLinks` | dagsync/tables.go:145-178 | Every link below a node once, in the order of first occurrence |
| `Dags.ExtractLinksExactly` | dagsync/tables.go:130-143 | ExtractLinks gives a dag-cbor block's links, each once, in the order of first occurrence, and none for other codecs; it fails exactly on a dag-cbor block that does not decode |
| `Dags.Tables.Put` | dagsync/tables.go:36-46 | All three tables after a Put, and every recorded CID stays listed under its hash |
| `Dags.PutKeepsRevExactly` | dagsync/tables.go:36-46 | If CIDsForHash lists exactly the CIDs recorded with each hash, a Put keeps it so if and only if the CID is new or keeps its hash |
| `Traversals.PreorderConcat` | dagsync/traversal.go:36-58 | Pre-order threads the visited set from one list of CIDs to the next |
| `Traversals.VisitsExactlyReachable` | dagsync/traversal.go:32-58 | The traversal visits, once each, exactly the CIDs that a path from the root reaches without entering a visited CID or going through a raw one, on cyclic tables too |
| `Traversals.LinksInOrder` | dagsync/traversal.go:32-58 | A CID whose links lead no further is followed by these, in their order |
| `Traversals.FilterKeeps` | dagsync/traversal.go:62-80 | What each mode of a filter leaves of the CIDs visited; without a filter all |
| `Traversals.PushLinks` | dagsync/traversal.go:55-57 | Pushing links from last to first puts them in order on top of the stack |
| `Traversals.FullTraversal` | dagsync/traversal.go:24-60 | The stack loop terminates and returns the filtered recursive left-to-right pre-order |
| `Traversals.TraversalCids` | dagsync/traversal.go:9-22 | A sequence as given, or else the full traversal, or else an error |
| `Syncs.WriteSyncResponse` | dagsync/sync.go:59-103 | The items written for the traversal, up to the first CID that cannot be served |
| `Lockstep.ItemsSay` | dagsync/sync.go:66-103 | Each item up to the first CID that cannot be served is that CID's recorded hash, with its data exactly where the request asks for it |
| `Lockstep.EndsAt` | dagsync/sync.go:66-103 | There the response ends: before the CID if it is not recorded, after its header if only the data is missing |
| `Lockstep.CompleteExactly` | dagsync/sync.go:66-103 | A response is complete, with one item for each CID, exactly if all can be served |
| `Syncs.ReadOneResponse` | dagsync/sync.go:184-222 | Tables, store, position and result after one item, in every branch, as Lockstep.TakesExactly and Lockstep.ReceiverIntegrity describe them |
| `Lockstep.TakesExactly` | dagsync/sync.go:184-222 | An item is taken exactly if it is a hash, or data with the header's hash that matches the CID and, for dag-cbor, decodes |
| `Syncs.ReadFullSyncResponse` | dagsync/sync.go:148-182 | The loop terminates on every finite stream and tables, and leaves what the specification function says |
| `Syncs.ReadSyncResponse` | dagsync/sync.go:132-146 | The same for either kind of traversal |
| `Syncs.PreferencesDiffer` | dagsync/sync.go:132-146 | With both kinds of traversal in one request the sender serves the sequence and the receiver walks |
| `Lockstep.ReceiverIntegrity` | dagsync/sync.go:148-222 | On every stream and from any tables, each included CID is recorded at most once and stays so; recorded data matches the CID's multihash, the recorded hash is that of the stored blob and the links are those in it; nothing else changes |
| `Lockstep.InStepExactly` | dagsync/sync.go:59-222 | For every filter, inlining, receiver tables and end of the stream, against a sender whose sent entries are true: the receiver takes the first k items to be for the CIDs they were sent for if and only if the sender's list begins as the walk over the links in view (sent data for included CIDs, its own tables for others); it takes all so and succeeds if and only if that walk is the list |
| `Lockstep.DecidedBySender` | dagsync/sync.go:59-222 | If the filter leaves out raw CIDs only, this depends on the sender's tables and the request alone: step is kept exactly if the links of inlined CIDs give the sender's list again |
| `Lockstep.SyncKeepsStep` | dagsync/sync.go:59-222 | In step the receiver, starting from any tables, reads exactly the response and ends with the sender's hash, the links in the data sent and that data for every included CID |
| `Lockstep.DataOfLinksIsEnough` | dagsync/sync.go:86-103 | Sending the data of every visited CID that has links keeps step and puts all the sender's links in view |
| `Lockstep.HashOnlyRootStops` | dagsync/sync.go:195-198 | A root of which only the hash comes is all the receiver asks for: step is kept exactly if nothing else was sent |
| `Lockstep.SequenceIsRead` | dagsync/sync.go:132-146 | For a list of CIDs, repeats included, whose entries the sender has true: the receiver, from any tables, reads exactly the response and ends with the sender's hash, the links in the data sent and that data for each |
| `Lockstep.SequenceIntegrity` | dagsync/sync.go:132-146 | On every stream a sequence is read one item for each CID; a CID for which one came ends as one of its items says, checked like any other, and nothing else changes |
| `Lockstep.CutIsNotNoticed` | dagsync/sync.go:188-191 | A stream cut between two items is accepted whenever the whole one is |
| `Lockstep.EmptyStreamSucceeds` | dagsync/sync.go:188-191 | Without anything to read the receiver succeeds and changes nothing |
| `Vectors.ReduceInto` | dtrain/group.go:901-912 | In-place reduction of one vector into another |
| `Vectors.AnyOrder` | dtrain/group.go:396-415 | Folding each rank once, in any order, gives the fold in rank order |
| `Vectors.FoldedReduces` | dtrain/group.go:396-421 | Folding in rank order, and dividing for a mean, gives in each place the ranks' sum, the number that n times is their sum, or the one of them that is not below any |
| `Vectors.ReducedOnce` | dtrain/group.go:396-421 | There is only one such vector |
| `Rounds.NextKeeps` | dtrain/group.go:379-486 | Any step of any rank or of the network keeps, for reductions and gathers: no rank is taken in twice, mail is as it was sent, results are what was taken in |
| `Rounds.ReturnedIsResult` | dtrain/group.go:379-486 | Over every interleaving, a rank whose AllReduce or AllGather returns has taken in each rank's vector exactly once, and returns in each place their sum, mean or maximum, or all of them in rank order |
| `Rounds.GatheredInPlace` | dtrain/group.go:474-485 | In the result of a gather each rank's vector is found at that rank's place |
| `Rounds.AllReturnTheSame` | dtrain/group.go:379-486 | All ranks that return, whenever they do, return the same vector |
| `Rounds.DroppedForGood` | dtrain/group.go:601-612 | A call that was dropped or lost is never made up for: its callee does not return from that collective |
| `Rounds.DroppedExactly` | dtrain/group.go:601-612 | In every state that a run reaches, an arriving call is dropped if and only if its callee is not in its loop, having not published yet or failed; otherwise its frame is put into the mailbox, which always has room; either way it is served, to be answered once the callee has published |
| `Rounds.DropsExactly` | dtrain/group.go:569-612 | Over all steps, a call that was made comes to be dropped exactly by arriving so, by being lost, or by its callee failing |
| `Rounds.ReadyForEveryCall` | dtrain/group.go:601-612 | Over every run, a rank that returns was in its loop whenever a call to it arrived, and one to which a call came before it published never returns |
| `Rounds.CallerReturnsCalleeDoesNot` | dtrain/group.go:601-612 | The caller of such a call can return: for any two vectors of one length there is a run that ends so |
| `Collectives.RunIsAllReduce` | dtrain/group.go:379-423 | What a rank returns in any run of a reduction is what its own AllReduce loop returns for the answers it received there |
| `Collectives.RunIsAllGather` | dtrain/group.go:431-486 | And the same for a gather: the frames that a returning rank took in, in the order they came, make its own AllGather loop succeed with what it returned |
| `Groups.RankIsCount` | dtrain/group.go:305-321 | A member's rank is the number of smaller ids: unique, and the same wherever the same members are known |
| `Groups.Group.SetMember` | dtrain/group.go:287-296 | Membership and ranks after an announcement; a known address is kept |
| `Groups.Group.RemoveMember` | dtrain/group.go:298-303 | Membership and ranks after a member leaves |
| `Groups.NoFrameLost` | dtrain/group.go:563-643 | With one frame from each peer none is lost for lack of room, however deliveries and receives alternate: what was taken and what is left is all that came, in order |
| `Groups.Group.AllReduce` | dtrain/group.go:379-423 | Succeeds exactly when each peer gave a vector of the right length; each place of what it returns is the sum, mean or maximum of all ranks' there; no mailbox is left behind |
| `Groups.Group.AllGather` | dtrain/group.go:431-486 | Succeeds exactly when every receive was a member's vector of the right length and no rank was left out; then each rank came exactly once and the result is in rank order, whatever frames came |
| `Groups.GatheredAt` | dtrain/group.go:460-485 | Each vector that arrived is found at its sender's place in what is returned |
| `Groups.DialedPeer` | dtrain/group.go:445-459 | A dialed member's answer counts as that member's, whatever sender it names |
| `Groups.CallingPeer` | dtrain/group.go:445-476 | A frame that was waited for counts as its sender's, if that is a member and the length is right |
| `Groups.CoversMeansOnce` | dtrain/group.go:477-484 | n receives that leave out no rank below n are one from each |
| `Groups.Group.ReduceScatter` | dtrain/group.go:493-512 | This rank's shard of such a vector, exactly when the length divides and the reduction succeeds |
| `Groups.ShardsPartition` | dtrain/group.go:509-511 | The shards of all ranks, one after the other, are the whole reduced vector |
| `Ledgers.SigningMessageInjective` | x402iroh/scheme.go:46-56 | A signing message stands for one network and one authorization only |
| `Ledgers.SigningLayout` | x402iroh/scheme.go:46-56 | The signing message field by field, each prefixed with its length |
| `Ledgers.TooLongExactly` | x402iroh/ledger.go:188-194 | The validity window is bounded except where the seconds overflow inside time.Unix, and exactly when |
| `Ledgers.DueExactly` | x402iroh/ledger.go:142-217 | The checks up to the balance pass exactly for a payload of this ledger's version, scheme and network that is made out to the required recipient for the required amount, in its window, with a good nonce that is not spent, signed by the payer |
| `Ledgers.CreditKeepsBalance` | x402iroh/ledger.go:47-72 | A credit keeps the sum of balances equal to what was issued |
| `Ledgers.MoveKeepsBalance` | x402iroh/ledger.go:104-106 | A settlement keeps it, payments to oneself included |
| `Ledgers.MovesExactly` | x402iroh/ledger.go:104-106 | With less than 2^64 issued nothing wraps: the payee gains what the payer loses and nobody else changes |
| `Ledgers.PaysOver` | x402iroh/ledger.go:101-106 | With less than 2^64 issued, a settlement raises the recipient's balance by the amount and lowers the payer's, from the faucet's amount for an account first seen |
| `Ledgers.Ledger.Conserved` | x402iroh/ledger.go:46-115 | In every reachable state the balances add up to faucet times accounts plus credits, modulo 2^64 always and exactly below 2^64 |
| `Ledgers.Ledger.Credit` | x402iroh/ledger.go:47-52 | The new balances |
| `Ledgers.Ledger.Account` | x402iroh/ledger.go:64-72 | An account seen first gets the faucet's amount |
| `Ledgers.Ledger.Check` | x402iroh/ledger.go:142-217 | All checks in order; at most the payer's account is opened |
| `Ledgers.Ledger.Verify` | x402iroh/ledger.go:75-83 | Valid exactly when settling now would pay, said by the requirements, the clock, the payer's funds and the signature; no balance changes |
| `Ledgers.Ledger.Settle` | x402iroh/ledger.go:87-115 | Paid exactly for a payable payload; then the required amount goes from the payer to the required recipient and the nonce is spent; no nonce string settles twice and the sum of balances is kept |
| `Ledgers.SettledAsSigned` | x402iroh/ledger.go:87-115 | A settled payment went to the recipient and for the amount that its requirements named, in its window, as its payer signed it, and its signature settles no second payment |
| `Ledgers.PlainNoncesSettleOnce` | x402iroh/ledger.go:196-202 | Among nonces spelled as the wallet does no 32 bytes settle twice |
| `Ledgers.RespelledPassesExactly` | x402iroh/ledger.go:196-202 | After a payment, the same payment signed over another spelling of its nonce passes exactly if that string was not spent |
| `Ledgers.SpelledOtherwise` | x402iroh/ledger.go:196-199 | Every good nonce has such another spelling |
| `Handshakes.SigningBytesInjective` | enclaveiroh/claim.go:62-83 | Different claims never sign the same bytes |
| `Handshakes.SigningLayout` | enclaveiroh/claim.go:62-83 | The bytes that are signed, field by field |
| `Handshakes.Handshake.ExchangeHellos` | enclaveiroh/handshake.go:175-199 | The first phase: the peer's mode and nonce or failure |
| `Handshakes.Handshake.ReceiveClaim` | enclaveiroh/handshake.go:225-248 | The receive half of the second phase in every mode |
| `Handshakes.Handshake.RunHandshake` | enclaveiroh/handshake.go:160-269 | What a run returns and the one claim it signs, for all frames it may be sent |
| `Agreements.ReturnedMeans` | enclaveiroh/handshake.go:224-268 | Nothing is returned about the peer exactly in prove mode, which reads one frame only; an unattested result needs a peer that only verifies and a policy that allows it |
| `Agreements.HonestPeer` | enclaveiroh/handshake.go:160-269 | Given an honest peer's hello and claim a session returns that claim if its policy accepts it, Unattested for a peer that only verifies if that is allowed, and nothing in prove mode; otherwise it fails |
| `Agreements.SignsFullClaim` | enclaveiroh/handshake.go:200-224 | An attesting session signs exactly after its peer's hello, the server only after a claim if it waits for one; what it signs is its own claim with both nonces and its key |
| `Agreements.NextKeepsInv` | enclaveiroh/handshake.go:160-269 | Any step of any session keeps: every honest signature that arrives was made by a session that holds the key |
| `Agreements.Agreement` | enclaveiroh/claim.go:117-147 | Over every interleaving, a session that returns Attested under an honest key has exactly one partner: the complementary role, the same ALPN, both endpoints mirrored and the same two nonces; and no other session has that partner |

## Left out

- Network and transport: iroh endpoints, QUIC streams, dialing, gossip delivery, tickers, contexts and timeouts; a call that they would end is one that fails.
- Cryptography: ed25519, ECDSA, SHA-256, BLAKE3; hashes and signatures are ideal.
- UTF-8: notes are checked for control characters but not for valid encoding, and multi-byte spaces in key names are not modelled.
- The distinct error values of note.Open and note.Sign: each is one failure.
- The zero Policy, nil receivers and nil tables.
- The arithmetic width of stored-hash indexes: sizes are bounded by an int64, intermediate products are not.
- Operator.Announce, Client.Sync, Client.Watch as an iterator, tickets and accessors: they only pass values on.
- Entries of other namespaces or authors in a document: the store holds one author's timeline.
- JSON, postcard, CBOR, multihash and CID parsing: messages are the values they decode to; a block carries what dag-cbor decoding makes of it.
- Tables.ImportBytes and the partial bytes of a DAG stream: a stream is a sequence of items up to the first malformed one.
- Floating point: vectors hold reals, so bitwise equality across ranks is not claimed.
- Changes of membership during a collective, and members that do not follow the protocol.
- Progress of collectives and of parked checkpoints: both depend on timing.
- Group.Barrier, Group.Broadcast and group events.
- Hex encoding of transaction ids and the wallet of the payment package; the protocol version, whose number is not part of this model, is a parameter.
- Policy.Check of the handshake: the policy is any predicate on claims, which covers the pinning hook too.
- Frame size limits and the advisory results of the handshake's third phase.
- Secure Enclave, keychain, hardening, all command-line programs and the other packages of the repository.
- Rounds.ReturnedIsResult: one sequence number at a time, because mailboxes are kept per number and a member uses each number once.
- Groups.Group.AllReduce: what the peers answered is a parameter; which answers come is what Rounds is about.
- Readers.ProveRecord: the library also authenticates every tile it reads against the root; here the hashes come from the operator's own tiles, where that check has nothing to refuse.
- Checkpoints.MarshalParseExactly: the hash line is one symbol, so other base64 spellings of the same 32 bytes (bits after the last byte, a carriage return) are not modelled.
- Lockstep.InStepExactly: a sender may still serve an entry that is not true; what the receiver records then is what Lockstep.ReceiverIntegrity says.
