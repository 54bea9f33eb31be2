# A verified model of the proof chain, its sink, its bundles and its trees

The repository keeps append-only hash chains, seals them with signed checkpoints,
commits to personal data so that it can be erased, and exports what it holds as
JSON bundles that anyone can verify. This project models its logic in Dafny and
proves what that logic is for. Six parts, each a few modules:

- **Merkle trees** (`Merkle`, `Consistency`, `Inclusion`, `Frontier`): the
  recursive trees and proof generators of RFC 9162, section 2.1, the iterative
  consistency verifier that walks the bits of a leaf index, and the in-place
  frontier. The fast forms are proved to agree with the simple one at every size,
  and proofs to be complete, sound and unique.
- **The bundle reader** (`JsonText`, `JsonTree`, `ByteOrder`, `Findings`,
  `NameArena`, `ReaderState`, `Reader`, `BundleMeaning`, `BundleDecode`, `BundleAnswer`): a
  one-pass JSON reader over bytes (RFC 8259, sections 6 and 7; RFC 3629) with a
  cursor, counters, finding flags, a "stop building" state and an arena of
  names. Its answer is proved to be that of parsing the whole input first and
  judging it afterwards.
- **The bundle verifier** (`Timestamps`, `Preimages`, `Bundles`, `Tampering`,
  `Tallies`, `Verdicts`, `Verifier`, `Consequences`, `Histories`,
  `BundleVerifier`, `CheckpointText`, `CheckpointReader`, `BundleBytes`,
  `MemberNames`): the reading of a checkpoint's text, the passes over a chain,
  and what a chain without problems is; an accepted checkpoint admits one history.
- **The sink** (the `Sink*` modules, `ErasureMeaning`): five files, each written
  in its own transactions, in the order the source writes them. Every
  transaction may commit, fail, commit and report an error, or be the last thing
  the process does. Commit, erasure and its resumption are proved to keep the folder sound
  from every reachable state.
- **The export** (`Encodings`, `Printer`, `ExportTree`, `Exports`, `Pieces`,
  `Exporter`, `ExportMeaning`): the bundle's printer, proved to write something
  exactly when a bundle can carry what was asked for, and to write what the reader
  reads back and the verifier does not blame.
- **The linker and the checkpoint heads** (`Ordering`, `Linking`, `Linker`,
  `LinkedChains`, `HeadMemory`, `Checkpointer`): how positions and hashes are
  assigned, whatever the batches; and the memory that keeps a checkpoint series
  from being cut back or restarted unnoticed.

Code that computes is functions here; code that changes state step by step is
classes and loops, proved against specification functions about which the
properties are lemmas.

How some things are stated:

- In the trees a digest is a free datatype: the three domain-separated hashes are
  distinct injective constructors, and `Foreign` is any digest that is none of
  them. Elsewhere SHA-512 is a function on strings, and the one lemma group that
  needs it says `NoCollision` of exactly the inputs that were hashed.
- The records a file holds are maps; one file transaction is one assignment. A
  transaction's outcome is drawn freely (`Sink.Strike`); `faults` counts those
  that did not simply commit, so that "without a fault" can be said.
- What comes from libraries (SHA-512, strict base64 decoding, ML-DSA
  verification, the commitment check, a checkpoint's canonical bytes) is a
  parameter (`World`, `Env`, `Settings`). Where the base64 decoder's answers
  matter it is asked to agree with the decoder of RFC 4648 written out in
  `Encodings`.

Where the code and its documentation differ: the comment at
`sink/commit.go:73-77` says that on any returned error a call leaves nothing new
behind, unless a clean-up failed or an append could not be checked. Commit takes
the two writes that open it at their word: when the new pairs' index write
(`sink/commit.go:221-226`) or the content write (`sink/commit.go:616-620`)
reports an error, nothing of it is taken back, also if it had landed all the
same. `SinkProtocol.Sink.Commit` gives the exact condition: of the calls that
are rejected without a failed clean-up, those leave nothing new, in rows or in
the index, in which neither of the two writes landed under an error
(`lateBinds`, `lateContents` count them). Either is enough to leave something,
whatever the call (`SinkPlans.LateBindStays`, `SinkCommit.LateContentStays`),
and `SinkPlans.LateBindLeaves` and `SinkPlans.LateContentLeaves` are one input
each: a new pair, whose index row stays, and a pair already bound, whose chain
keeps the content. `SinkPlans.ContentAtItsWord` is about tidiness alone: whether
what a late content write left lies on a chain without an index row. That is the
only promise over whole runs which it costs (`SinkRuns.Run`): every chain with
entries stays bound, pending or erased all the same.

## Model

| member | source | states |
|---|---|---|
| Merkle.LargestPowerOfTwoLessThan | merkle/merkle.go:155-164 | the doubling loop on machine integers gives the split point and never overflows |
| Merkle.SplitUnique | merkle/merkle.go:142-164 | a power of two k with k < n <= 2k is the split point, so there is one |
| Merkle.RootInjective | merkle/merkle.go:126-139 | two leaf lists of one length with one root are one list |
| Consistency.VerifyConsistency | merkle/consistency.go:78-146 | the iterative bit walk accepts exactly what rebuilding the two roots down the recursive tree accepts, on every input, malformed ones too |
| Consistency.WalkIsRebuild | merkle/consistency.go:94-145 | the node/lastNode walk from leaf m - 1 and the recursion from the root compute the same pair of roots from any proof |
| Consistency.WalkRight | merkle/consistency.go:109-133 | inside the right subtree behind w leaves the walk is that subtree's own walk, then one left sibling |
| Consistency.WalkLeft | merkle/consistency.go:109-133 | inside the left subtree the walk is that subtree's own walk, then one right sibling |
| Consistency.StripZero | merkle/consistency.go:94-104 | the first climb reaches the root exactly when the old size is a power of two, the case in which a proof omits the old root |
| Consistency.SubProofShape | merkle/consistency.go:43-56 | what the recursive generator emits: the meeting subtree's root, unless it is implied, and the siblings above it |
| Consistency.RebuildExact | merkle/consistency.go:43-56 | one seed and one list of siblings rebuild the root of the leaves, and what they rebuild beside it is the root of the first m of them |
| Consistency.ConsistencyExact | merkle/consistency.go:29-146 | complete, sound and unique: against the root of a leaf list an old root, whatever it is claimed to be of, and a proof are accepted exactly when the size is one of the list's, the old root is that of its first m leaves, and the proof is the one ConsistencyProof makes |
| Consistency.PrefixExact | merkle/consistency.go:29-146 | between two leaf lists: accepted exactly when the first is a prefix of the second and the proof is that one |
| Inclusion.InclusionExact | merkle/inclusion.go:32-116 | against the root of a leaf list exactly one leaf hash and one path are accepted at each index, and none at an index outside it |
| Inclusion.RebuildsLeaf | merkle/inclusion.go:91-116 | the recursive verifier reaches the root from a leaf hash and a path exactly for that leaf's hash and its own path |
| Inclusion.InclusionLength | merkle/inclusion.go:45-55 | a path is never longer than the logarithm of the size, rounded up |
| Frontier.Frontier.Append | merkle/frontier.go:42-55 | the carry loop: the frontier then stands for one leaf hash more, and it made one NodeHash for every level it carried through |
| Frontier.CarryHolds | merkle/frontier.go:42-55 | carrying a block's root up keeps every occupied level the root of its own aligned block |
| Frontier.CarryBits | merkle/frontier.go:13-16 | after the carry the occupied levels are the set bits of the size plus one |
| Frontier.Frontier.Root | merkle/frontier.go:64-80 | the fold over the levels is the root of the leaf hashes the frontier stands for |
| Frontier.FoldHolds | merkle/frontier.go:64-80 | folding the levels from the lowest up gives the root of the whole list, whatever the tail already folded |
| Frontier.RootOfBlocks | merkle/merkle.go:126-139 | a full block of w leaves followed by at most w more is split exactly between them |
| Frontier.FrontierFromLeaves | merkle/frontier.go:90-96 | n appends make n minus popcount(n) node hashes: the amortized constant the comment claims |
| Frontier.FrontierRoot | merkle/frontier.go:87-96 | the incremental root equals RootFromLeaves for every leaf list |
| Frontier.OccupiedBit | merkle/frontier.go:13-16 | level i is occupied exactly when bit i of the size is set |
| Frontier.Marshal | merkle/frontier.go:101-114 | writes the size and the occupied levels |
| Frontier.UnmarshalFrontier | merkle/frontier.go:123-169 | accepts exactly the lines that parse, and what it accepts is a frontier whose occupied levels are the set bits of its size |
| Frontier.ParseLine | merkle/frontier.go:98-169 | reading a written frontier rebuilds it, for every frontier a run of appends reaches |
| Frontier.ParsedIsValid | merkle/frontier.go:123-169 | any accepted line keeps the invariant that Append and Root need |
| JsonText.ScanString | exportbundle/reader.go:894-928 | scans exactly the strings the grammar has, and says their raw bytes, the length they unescape to and whether they hold an escape |
| JsonText.ScanUnescape | exportbundle/reader.go:891-1037 | a string accepted spells what unescaping its raw bytes gives, all of them, in valid UTF-8 |
| JsonText.Scanned | exportbundle/reader.go:894-928 | the length announced is the number of bytes the unescaped form has |
| JsonText.ScanShrinks | exportbundle/reader.go:481-516 | a string with an escape is spelled in fewer bytes than it takes, which keeps the arena within the input |
| JsonText.AppendUnescaped | exportbundle/reader.go:1022-1037 | consumes all of the raw bytes and appends their unescaped form |
| JsonText.DigestUnescaped | exportbundle/reader.go:1041-1059 | hashes those same bytes, piece by piece |
| JsonText.EscapeLocal | exportbundle/reader.go:962-997 | an escape, surrogate pairs included, is decided by its own bytes |
| JsonText.ShortEscapes | exportbundle/reader.go:962-997 | the eight escapes of two characters, and what each stands for; no other character follows a backslash but u |
| JsonText.PlainUnit | exportbundle/reader.go:962-1019 | every character of the basic plane reads from its four hex digits, in either case |
| JsonText.SurrogatePair | exportbundle/reader.go:962-997 | every other character reads from its two surrogates |
| JsonText.EncodeMeans | exportbundle/reader.go:962-997 | the bytes an escape is replaced with are the UTF-8 of that character, by RFC 3629 |
| JsonText.EscapeOnly | exportbundle/reader.go:962-997 | and no other escape is one: a lone surrogate is none |
| JsonText.OnlyHexDigits | exportbundle/reader.go:1000-1019 | four hex digits are read exactly where four hex digits stand |
| JsonText.RuneOnly | exportbundle/reader.go:894-928 | a byte sequence accepted is the encoding of a character: none too long, no surrogates |
| JsonTree.DigitsRun | exportbundle/reader.go:856-889 | a run of digits, as long as can be |
| Findings.StoredIdsTell | exportbundle/reader.go:625-652 | stored ids, whole or digested, are equal exactly when the ids are |
| NameArena.NameBytes | exportbundle/reader.go:531-539 | a reference of four bytes gives back the name it was made from, in the input or in the arena |
| NameArena.ArenaGrows | exportbundle/reader.go:481-516 | what is appended to the arena moves no name |
| NameArena.SortRefs | exportbundle/reader.go:519-528 | the references in order of their names, each still with its own name |
| NameArena.NeighboursTell | exportbundle/reader.go:519-528 | in that order equal names are neighbours, so comparing neighbours is exact |
| NameArena.DistinctParts | exportbundle/reader.go:404-476 | an object's names are distinct exactly when no defined name repeats and no unknown one does |
| BundleReader.Reader.CloseNames | exportbundle/reader.go:466-472 | at an object's end its repeated names are found, exactly, also when they are no longer kept, and its part of the arena is given back |
| ReaderState.InObjectEnds | exportbundle/reader.go:466-472 | an object read to its end is found to be what its members and its repeated names are, the outer objects' names are where they were, and its part of the arena is given back |
| BundleReader.NamesLate | exportbundle/reader.go:357-371 | names stop being kept only once a duplicate is known or the value limit has passed it by |
| BundleReader.Reader.Name | exportbundle/reader.go:481-516 | a member's index, or its name remembered; an error exactly where the grammar has no string |
| BundleReader.Reader.Object | exportbundle/reader.go:404-476 | reads exactly the objects of the grammar, and finds of each what its members, its missing members and its repeated names are |
| BundleReader.Reader.MemberOf | exportbundle/reader.go:542-598 | what one defined member is found to be and builds |
| BundleReader.Reader.Array | exportbundle/reader.go:697-730 | reads exactly the arrays of the grammar, element by element, with what each counts as |
| BundleReader.Reader.Element | exportbundle/reader.go:733-802 | one element, counted against its limit before it is read |
| BundleReader.Reader.SkipValue | exportbundle/reader.go:815-842 | reads past any value and builds nothing, but counts it and finds its duplicates |
| BundleReader.Reader.StringValue | exportbundle/reader.go:657-679 | a string kept, or marked oversize, or another value noted and read past |
| BundleReader.Reader.Number | exportbundle/reader.go:856-889 | the number grammar of RFC 8259, section 6 |
| BundleReader.Reader.Peek | exportbundle/reader.go:337-347 | the next byte that is not whitespace, not consumed |
| BundleReader.Reader.CheckNames | exportbundle/reader.go:519-528 | two equal names among one object's unknown names, exactly |
| BundleReader.Reader.KeepName | exportbundle/reader.go:481-516 | an unknown name is located from then on, and every offset stays below 2^31 |
| BundleReader.Reader.ReadDocument | exportbundle/reader.go:311-333 | succeeds exactly on the grammar's documents, nested no deeper than the limit |
| BundleMeaning.DocumentTells | exportbundle/reader.go:382-389 | one pass counts every value once, and finds a duplicate if and only if some object has two members of one name |
| BundleMeaning.DocumentFits | exportbundle/reader.go:311-333 | without duplicates, a structure violation is found exactly when the document does not have the bundle's structure |
| BundleMeaning.MembersFit | exportbundle/reader.go:404-476 | an object's members break the structure exactly when one of them is undefined or does not fit its place |
| BundleDecode.BundleBuilt | exportbundle/reader.go:733-802 | what one pass builds of a bundle in shape is what looking its members up one by one gives |
| MemberNames.EntryByName | exportbundle/reader.go:542-598 | by their literal names: which member each field of an entry is read from, and how much of it is kept |
| MemberNames.ChainByName | exportbundle/reader.go:95-108 | and each field of a chain |
| MemberNames.BundleFits | exportbundle/reader.go:95-108 | the structure of a bundle by its literal names: what may be there, what must, and what each value is |
| BundleAnswer.DocumentMeans | exportbundle/reader.go:274-296 | the flags of one pass, told in the document's own terms |
| BundleAnswer.ReadBundle | exportbundle/reader.go:274-296 | the one-pass answer is that of parsing the whole bundle and then giving the first applicable reason, or the chains it holds, whatever order the defects come in |
| Timestamps.FormatParsed | exportbundle/verify.go:580-600 | a timestamp accepted is the only string for its instant |
| Timestamps.ParseFormatted | chainformat/chain_hash.go:296-325 | every instant of the years 0001 to 9999 is written so that it reads back |
| Timestamps.AcceptedExactly | exportbundle/verify.go:580-600 | the strings accepted are exactly those written for the instants of those years; which days those years have is Timestamps.AcceptedDates |
| Timestamps.DayKept | exportbundle/verify.go:580-600 | comparing the day after time.Date tells exactly the dates that exist (Timestamps.AcceptedDates says which those are) |
| Timestamps.CivilDays | exportbundle/verify.go:580-600 | days are counted as by the closed formula of the Gregorian calendar, for every year, month and day |
| Timestamps.AcceptedDates | exportbundle/verify.go:580-600 | a timestamp is accepted exactly when its day is one of the month's, by the table of twelve lengths and the Gregorian leap rule, and its instant is then the closed formula of its numbers |
| Timestamps.AppendIntPadded | chainformat/chain_hash.go:333-355 | the digits written from right to left into a fixed buffer are the padded decimal, and no int64 overruns it |
| Preimages.ChainPreimageInjective | chainformat/chain_hash_v3.go:129-146 | two entries hashed alike are alike, if neither previous hash holds the delimiter |
| Preimages.ChainPreimageAmbiguous | chainformat/chain_hash_v3.go:184-198 | with a delimiter in it, two different entries are hashed alike: the check cannot be dropped |
| Preimages.AnchorPreimageInjective | anchor/chainhash.go:180-195 | the five fields come back from an anchor preimage without delimiters in them |
| Preimages.AnchorPreimageAmbiguous | anchor/chainhash.go:80-92 | with one in an entry id, another range has the same preimage |
| Preimages.AnchorWire | anchor/chainhash.go:180-195 | a checkpoint's chain hash by its literal domain and delimiters, refused exactly for a delimiter in a field |
| Preimages.TaggedInjective | sink/record_envelope.go:95-113 | tagged, length-prefixed values are injective, whatever bytes they hold and however many there are |
| Preimages.EnvelopeInjective | exportbundle/verify.go:633-645 | one record signature covers one record |
| Preimages.BuildEnvelope | exportbundle/verify.go:633-645 | the loop over the eight fields writes the tagged form (Bundles.EnvelopeFields says it byte by byte) |
| Bundles.SeqSpelled | exportbundle/verify.go:570-576 | a sequence number accepted is spelled in the one way in which it is hashed |
| Bundles.CanonicalDigits | exportbundle/verify.go:570-576 | digits without a leading zero are the decimal of their value |
| Bundles.SignedOnce | exportbundle/verify.go:474-496 | two well-formed records with one envelope are one record of one chain, under one key |
| Bundles.HashedAsStored | chainformat/chain_hash_v3.go:129-146 | a well-formed entry is hashed as its strings are stored, behind the literal domain and between pipes, though number and timestamp are parsed and written anew |
| Bundles.EnvelopeFields | sink/record_envelope.go:95-113 | a record envelope byte by byte: the literal domain, a NUL, and eight fields tagged from 1 with their lengths |
| Bundles.ChainIdIs | sink/route.go:35-36 | the chain ids accepted are exactly a class of 1 to 31 characters, a dot and 32 lowercase hex digits |
| Bundles.EntryIdIs | sink/route.go:39-42 | the entry ids accepted are exactly "sink-" and 32 lowercase hex digits |
| Tampering.PreimageTells | exportbundle/verify.go:278-298 | two well-formed entries with one preimage are equal, as strings, in everything it covers |
| Tampering.SameBack | exportbundle/verify.go:278-298 | one chain hash fixes the whole chain before it |
| Tampering.OneHistory | exportbundle/verify.go:417-470 | two chains that pass checkpoints of the same chain hash cover the same entries, under one chain id |
| Histories.SameHistory | exportbundle/verify.go:395-470 | tamper evidence: of two chains without problems, a common checkpoint hash makes every covered entry, the place in the series and every earlier checkpoint the same |
| Tallies.Tally.Add | exportbundle/verify.go:499-511 | the problems then say of every code how often it was found and its lowest index |
| Tallies.NoneFound | exportbundle/verify.go:499-516 | no problem is reported exactly when none was found |
| Verdicts.LastErasureIs | exportbundle/verify.go:229-298 | the last entry that holds the erasure hash for its place |
| Verdicts.PassingIs | exportbundle/verify.go:395-413 | the checkpoints that pass are those before the first that fails |
| Verdicts.CoveredIs | exportbundle/verify.go:417-470 | what the last passing checkpoint covers is on the chain and well-formed |
| ChainVerifier.CheckEntries | exportbundle/verify.go:243-298 | the first pass finds, entry by entry, exactly the shape, repetition, link and hash problems there are, and the last erasure |
| ChainVerifier.ClassifyEntry | exportbundle/verify.go:302-335 | one entry's outcome is the first matching row |
| ChainVerifier.Classify | exportbundle/verify.go:302-335 | the second pass counts every outcome |
| ChainVerifier.CheckCheckpoint | exportbundle/verify.go:417-470 | the code of the first step that fails on one checkpoint; the signature is checked over all its other members |
| ChainVerifier.CheckSeries | exportbundle/verify.go:395-413 | how many checkpoints pass, and how many entries the last of them covers |
| ChainVerifier.CheckRecordSignature | exportbundle/verify.go:474-496 | the code of one entry's record signature, verified over the eight tagged values of its record |
| ChainVerifier.CheckChain | exportbundle/verify.go:229-388 | counts, erasure state, verdict and problems are exactly the chain's |
| Consequences.SoundExactly | exportbundle/verify.go:243-298 | the first pass finds nothing if and only if the chain is linked, hashed, numbered, unrepeated and in shape |
| Consequences.CleanExactly | exportbundle/verify.go:229-388 | no problem at all if and only if the chain is sound, classified without fault, and every checkpoint and record signature passes |
| Consequences.Partition | exportbundle/verify.go:302-335 | every entry has exactly one outcome |
| Consequences.CleanCounts | exportbundle/verify.go:302-388 | conservation on a chain without problems: entries are erasures, opened, committed and erased events, and no more |
| Consequences.CleanErasure | exportbundle/verify.go:302-388 | a chain without problems holds no erasure, or ends in a genuine one with every earlier event undisclosed |
| Consequences.VerdictExact | exportbundle/verify.go:336-388 | ok if and only if nothing is wrong and every entry is covered by a trusted checkpoint or signed by a trusted key |
| Consequences.SignatureBinds | exportbundle/verify.go:474-496 | two record signatures accepted over the same bytes are of one record of one chain, under one key |
| Consequences.CheckpointBinds | exportbundle/verify.go:417-470 | two checkpoints accepted over the same canonical bytes are one, but for their signatures, if that form is injective |
| BundleVerifier.CountCopies | exportbundle/verify.go:190-199 | how often every chain id occurs; a problem exactly when one repeats, and which repeats it names |
| BundleVerifier.KeysDistinct | exportbundle/verify.go:206-216 | no two results have one key, whatever ids the bundle holds |
| BundleVerifier.VerifyBundle | exportbundle/verify.go:177-225 | ok exactly when there is a chain, no id repeats and every chain is ok; an empty bundle is never ok; every result has its chain's counts, erasure state and problems, and the bundle's own problems are its repeated ids |
| CheckpointReading.ParseCheckpoint | exportbundle/checkpoint.go:49-82 | the one reading gives what parsing the whole text and then judging it gives: exactly the eleven members, each of its type and in shape, or nothing |
| MemberNames.CheckpointByName | exportbundle/checkpoint.go:87-132 | by their literal names: which member each field of a checkpoint is read from |
| CheckpointText.ShapedTells | exportbundle/checkpoint.go:27-82 | no member is dropped: texts that make one checkpoint have the same eleven members, up to how the signature was spelled |
| CheckpointReading.CheckpointReader.Object | exportbundle/reader.go:404-476 | stops, or notes a fault, exactly when the object cannot be read or is not exactly what is defined; else every field is the member's |
| CheckpointReading.CheckpointReader.MemberOf | exportbundle/checkpoint.go:87-132 | one member of the checkpoint or of its range, of its own type and no other |
| CheckpointReading.CheckpointReader.Number | exportbundle/checkpoint.go:143-167 | the digits read are the number's value, and it is at most 2^53-1, without sign, fraction, exponent or leading zero |
| CheckpointReading.NumberTold | exportbundle/checkpoint.go:143-167 | the checks made on the digits tell exactly the canonical numbers, up to a digit that no delimiter can be |
| BundleBytes.Verify | exportbundle/verify.go:177-225 | from the bytes: the reason a bundle cannot be read, or the whole report on exactly the chains it holds, with every checkpoint's text parsed |
| SinkRuns.SoundMeans | sink/commit.go:481-661 | crash safety of one chain, from the invariant: every event not erased can be opened, nothing follows a genuine erasure, a signing sink has every signature, no source is there twice, and a chain with entries is bound, pending or erased |
| SinkRuns.Run | sink/commit.go:133-291 | so after any run of commits, erasures, resumptions and restored indexes, each cut short by a crash or not; without a restored index every chain with entries is bound, pending or erased; without a late content write either, no other chain holds anything |
| SinkProtocol.Sink.Commit | sink/commit.go:133-291 | all the records or none, however the call ends, crashed and uncertain ones too: what its pair's chain gets is the pair's records in order, without those whose source it holds or the call repeats, with equal content, and no other chain gets anything; an accepted call did that and a rejected one changed no chain, its reason is so, and unless a clean-up failed it leaves nothing new if and only if neither its index write nor its content write landed under an error; nothing is appended after a genuine erasure; every chain stays accounted for; the index gains rows for pairs of the call alone; a refusal for want of an id shows three draws that were all taken; without a fault it is accepted or refused cleanly, and when nothing stands in its way (no conflict, no pair on an erased chain, the mode the folder has) only such draws can keep it from being accepted |
| SinkProtocol.Sink.CommitDrafts | sink/commit.go:497-662 | content and nonces, signatures and positions first, then every chain's entries in one transaction, with the clean-up of a failure |
| SinkProtocol.Sink.AppendLanded | sink/commit.go:676-695 | whether an append that reported an error landed, told from the first entry of every chain |
| SinkProtocol.Sink.Resolve | sink/commit.go:314-363 | every pair of the call gets its chain, or a new one that is free, without a write; refused for a row on an erased chain, or for a new pair when three ids drawn for its class were all minted in this call, in the index or on a chain with entries |
| SinkProtocol.Sink.Mint | sink/commit.go:341-362 | an id of the class that is free; or none, after three ids of that class that were each minted in this call, in the index or on a chain with entries |
| SinkPlans.NoReason | sink/commit.go:133-291 | when nothing stands in a call's way, the one refusal left is the want of an id |
| SinkPlans.FirstCall | sink/commit.go:133-291 | nothing stands in the way of a first call to a new folder, whatever its records, if they name no source |
| SinkPlans.IndexBound | sink/commit.go:219-226 | binding the new pairs keeps every row of the index and adds rows for pairs of the call alone |
| SinkProtocol.Sink.DropDuplicates | sink/commit.go:391-447 | exactly the records whose source is on the chain or came earlier in the call are dropped, each with its equal there, or the conflict |
| SinkProtocol.Sink.ForgetFresh | sink/commit.go:296-308 | a failed call's new rows are taken back, positions first |
| SinkProtocol.Sink.MakeDraft | sink/commit.go:512-568 | one chain's entries, rows, signatures and positions, decided against its tail |
| SinkStages.AppendKeeps | sink/commit.go:620-661 | the append of a staged draft keeps the chain sound: nothing lands that could not be opened, found and verified |
| SinkStages.ExtendKeeps | sink/commit.go:518-568 | one more record keeps a draft in order |
| SinkTransactions.AppendKeepsAll | sink/commit.go:640-661 | the commit point keeps every chain sound at once |
| SinkTransactions.CleanedUp | sink/commit.go:587-615 | after the clean-up nothing of the draft is left |
| SinkTransactions.UnbindTidy | sink/commit.go:293-308 | taking back a failed call's rows is tidy exactly when nothing is left on the chains it bound |
| SinkTransactions.AccountedStays | sink/commit.go:219-226 | every chain with entries stays bound, pending or erased while chains outside the index keep what they held |
| SinkCommit.LandedOrNot | sink/commit.go:676-695 | the entries land together or not at all, so the first of each chain tells |
| SinkCommit.AfterAppend | sink/commit.go:640-661 | with everything staged, the append leaves a sound folder |
| SinkCommit.LateContentStays | sink/commit.go:616-620 | a content write that lands under an error leaves content, whatever the call |
| SinkRecords.JudgeExact | sink/commit.go:391-447 | a sourced record is new, or held with equal content, or held with other content, and the check tells which |
| SinkRecords.Settled | sink/commit.go:391-447 | after duplicates are dropped every record is on the chain or about to be |
| SinkRecords.RecordsInOrder | sink/commit.go:32-37 | a pair's records are taken in the order of the call |
| SinkRecords.OneRecord | sink/commit.go:32-37 | and each record is its own pair's alone |
| SinkPlans.AllOn | sink/commit.go:46-58 | once the drafts are appended every record of the call is on its pair's chain |
| SinkPlans.AllGotNow | sink/commit.go:32-37 | once the drafts are appended every pair's chain got exactly its own new records, in order, and no other chain changed |
| SinkPlans.CommitUndone | sink/commit.go:73-77 | a failed call, undone, leaves nothing new and the index as it was, unless its content write landed late: then content stays |
| SinkPlans.ContentAtItsWord | sink/commit.go:616-624 | after a failed content write no chain without an index row holds content, if and only if the write had not landed or had nothing for the new chains |
| SinkPlans.LateBindStays | sink/commit.go:221-226 | an index write that lands under an error leaves new rows, whatever the call |
| SinkPlans.LateBindLeaves | sink/commit.go:73-77 | the input for it: a new pair, in an empty folder |
| SinkPlans.LateContentLeaves | sink/commit.go:73-77 | the input for the content write: a pair already bound; the folder is tidy, and the content stays |
| SinkPlans.StillJustified | sink/commit.go:133-291 | a reason found after the new rows were bound was one before |
| SinkErasure.ScanChain | sink/erase.go:452-488 | one pass over a chain finds its events, whether it ends in a genuine erasure, and the record to keep |
| SinkErasure.ErasureKeeps | sink/erase.go:510-570 | with the erasure entry on it, nothing of the chain has to open any more |
| SinkErasure.WipeKeeps | sink/erase.go:573-586 | content, nonces and positions go only where nothing needs them |
| SinkErasure.DeletesTraced | sink/erase.go:308-335 | no delete of an erasure goes unmarked: a chain whose rows went is among those whose file has to be rewritten |
| SinkErasure.WritesTraced | sink/erase.go:510-570 | and its other transactions delete nothing |
| SinkErasure.ForgetsTraced | sink/erase.go:240-256 | nor does forgetting a subject, or a relinked chain |
| SinkTransactions.CleanUpTraced | sink/commit.go:587-615 | nor the clean-up of a failed call |
| ErasureMeaning.RecordHashed | sink/erase.go:510-570 | the record the sink stores is the one whose hash the verifier looks for |
| ErasureMeaning.ErasureRecognised | exportbundle/verify.go:229-298 | the verifier finds an erasure on a sink's chain exactly when the sink does, at its end and nowhere else, if no event's commitment is the hash of an erasure record |
| SinkErasure.ForgetKeeps | sink/erase.go:251-256 | forgetting keeps the index consistent, names the subject nowhere in that scope and makes its chains pending; every other subject, and every other class when one is given, keeps its rows and what its chains hold |
| SinkJobs.EntryStep | sink/erase.go:551-569 | the erasure entry is appended over its record and signature, to a chain that does not end in one |
| SinkJobs.RowStep | sink/erase.go:524-543 | the record row, put or taken back, keeps the folder sound |
| SinkJobs.WipeStep | sink/erase.go:573-586 | the deletes, whichever of them land |
| SinkSweeps.ForgetStep | sink/erase.go:240-256 | the forget transaction between the decisions and the erasures they are for: it too leaves every row out of its scope as it is |
| SinkSweeps.ClearStep | sink/erase.go:361-376 | a pending row may go once its chain is wiped and the files rewritten |
| SinkSweeps.FinishedAfter | sink/erase.go:258-356 | no chain leaves the index but one erased for good |
| SinkSweeps.ResumedAfter | sink/erase.go:152-356 | a completed resumption leaves nothing pending and no live row on an erased chain |
| SinkSweeps.TouchedGrows | sink/erase.go:26-51 | an erasing call only appends, and never after a genuine erasure |
| SinkSweeps.AccountedErased | sink/erase.go:159-376 | and leaves every chain accounted for, wherever it ends |
| SinkProtocol.Sink.EraseSubject | sink/erase.go:159-357 | nothing is forgotten, or no index row names the subject in that scope; whatever happens, every pair of another subject, or of another class when one is given, maps as before, and its chain is as it was; a chain leaves pending only once it is erased for good; a completed call has erased every one; without a fault it completes |
| SinkProtocol.Sink.EraseChain | sink/erase.go:447-587 | a chain reported swept holds nothing but the record of its genuine erasure, and no signature if it never had an entry; any other chain is untouched; whatever was deleted is marked for rewriting; run again after a crash anywhere, it finishes |
| SinkProtocol.Sink.RecordErasure | sink/erase.go:510-570 | when it succeeds the chain ends in the genuine erasure and its record is stored; when it fails the folder is as sound as before, and after a single failure neither record row nor signature is left, but for a row write that landed under its error |
| SinkProtocol.Sink.Presign | sink/erase.go:605-653 | every erasure entry is decided and signed before anything is written |
| SinkProtocol.Sink.SweepAll | sink/erase.go:258-306 | each pending chain is erased, one that fails stays pending and the rest go on: a fault costs one chain at most; whatever was deleted is marked for rewriting |
| SinkProtocol.Sink.ForgetRelinked | sink/erase.go:380-399 | every live row on a chain that ends in a genuine erasure becomes pending, and every other live row stays |
| SinkProtocol.Sink.FinishErasures | sink/erase.go:258-376 | erase, rewrite, clear: a row goes only after both |
| SinkProtocol.Sink.Rewrite | sink/erase.go:308-335 | every file deleted values lived in is rewritten, whatever became of the chains |
| SinkProtocol.Sink.ResumeErasures | sink/erase.go:152-357 | links no subject to anything, leaves the live rows of unerased chains and what these hold as they are, and from any sound folder, without a fault, leaves nothing pending |
| SinkProtocol.Sink.RestoreIndex | sink/erase.go:378-399 | any consistent index put back from a copy leaves the folder sound |
| Printer.RepairedSelf | sink/export.go:756-765 | a value that is UTF-8 is written as it is |
| Printer.EscapedReads | sink/export.go:756-765 | a string written reads back, wherever it stands and whatever follows |
| Printer.EscapedHarmless | sink/export.go:756-765 | a written string holds no control character, none of <, > and &, and no line separator U+2028 or U+2029 |
| Printer.PlainWritten | sink/export.go:756-765 | any other printable ASCII text, without quotes and backslashes, is written as it is |
| Printer.PrintReads | sink/export.go:452-604 | a tree written is the tree the reader's grammar reads, at any depth within the limit |
| Printer.DocumentReads | sink/export.go:159-238 | and so for a whole document |
| ExportTree.BundleSized | sink/export.go:452-604 | a bundle nests six deep, has no repeated name and a number of values its counts decide |
| ExportTree.ValuesBounded | sink/export.go:31-38 | at most four values a chain, fourteen an entry and one a checkpoint: the counts alone keep it below the reader's value limit, which the exporter never checks |
| ExportTree.BundleDecoded | exportbundle/reader.go:733-802 | looking up the members of an exported bundle gives the strings written |
| ExportTree.ExportReads | sink/export.go:31-38 | whatever its strings hold, a bundle within the four limits is readable, and what is read is what was written, repaired and capped |
| ExportTree.InShapeReads | sink/export.go:452-604 | printer and reader undo each other: strings in shape come back as they are |
| Pieces.RunObject | sink/export.go:509-541 | the pieces written one by one make the object's text |
| Pieces.ChainPieces | sink/export.go:509-577 | the pieces of a chain make its text |
| Pieces.TextsLonger | sink/export.go:687-738 | checkpoint texts are no shorter written than stored, so refusing early refuses nothing that would fit |
| BundleExporter.CountingWriter.Str | sink/export.go:747-754 | counts what was taken, and writes nothing after the first error |
| BundleExporter.Exporter.Signature | sink/export.go:582-604 | the stored row split at its boundary, whatever its length (Exports.SignatureBack says what its text decodes to) |
| BundleExporter.Exporter.Disclosure | sink/export.go:618-677 | fails exactly when a listed entry is not live, or what would be disclosed does not open; writes the member exactly when it is disclosed (Exports.DisclosedBack says what its text decodes to) |
| BundleExporter.Exporter.ReadAnchors | sink/export.go:687-738 | the texts in number order, refused for a gap, a stray file or text that is not UTF-8 |
| BundleExporter.Exporter.Chain | sink/export.go:452-577 | writes the chain's text exactly, or fails, and then the chain cannot be carried or a limit would be passed |
| BundleExporter.Exporter.Export | sink/export.go:159-238 | succeeds if and only if the whole bundle can be written: every chain allowed, all four limits kept, every listed entry one live event, and room for it; and then it is that bundle's text |
| BundleExporter.ExportableIs | sink/export.go:159-238 | what is written chain by chain is the whole bundle |
| Exports.ErasedBeforeIs | sink/export.go:483-494 | the last entry that holds the erasure hash, whatever its label |
| Encodings.HexReads | sink/export.go:598 | hex decodes back to the bytes written, for all bytes |
| Encodings.HexOnly | exportbundle/verify.go:603-612 | and an even number of lower-case digits is the hex of something |
| Encodings.Base64Reads | sink/export.go:672 | an independent strict decoder of RFC 4648 reads back the bytes written, for all bytes |
| Encodings.Base64Only | exportbundle/checkpoint.go:175-186 | and it accepts nothing but what is written so: whatever it decodes is spelled in the one canonical way |
| Exports.SignatureBack | sink/export.go:582-604 | the two texts of a signature decode to the stored row, cut at its boundary |
| Exports.DisclosedBack | sink/export.go:607-677 | the two texts of a disclosure decode to the stored content and nonce |
| Exports.DisclosedExactly | sink/export.go:607-677 | an entry is refused, or disclosed, exactly for what was asked and what is stored: listed, it must be an event behind every erasure on a chain that is not pending; asked for, its content and nonce must be there, of their sizes, and open it |
| ExportMeaning.ExportRoundTrip | sink/export.go:159-238 | an exported bundle is read, and holds what was exported |
| ExportMeaning.SameWellFormed | sink/export.go:443-449 | the verifier calls an exported entry well-formed exactly when the exporter does, and then has its fields as stored |
| ExportMeaning.SameErasure | sink/export.go:483-494 | the exporter withholds up to exactly the entry the verifier takes for the last erasure |
| ExportMeaning.SeqReceived | sink/export.go:521-522 | a stored sequence reads back, or is out of shape exactly when it is negative |
| ExportMeaning.ReceivedAscii | exportbundle/reader.go:657-679 | nothing out of shape is made to look in shape by repair or cap |
| ExportMeaning.ExportedOutcomes | sink/export.go:607-677 | no disclosure of an exported chain is ever blamed, and on a chain without an erasure exactly the well-formed events disclosed are opened |
| ExportMeaning.ExportVerifies | sink/export.go:126-238 | so for every chain of every export that succeeds, from the folder to the verdicts |
| ExportMeaning.StrictExists | exportbundle/checkpoint.go:175-186 | what the export lemmas ask of the verifier's base64 decoder is met: by the decoder of RFC 4648 |
| ExportMeaning.DisclosedMeans | exportbundle/verify.go:603-612 | the disclosures in shape are exactly the base64 of 1 to 65,536 bytes with the hex of a nonce of 32 |
| ExportMeaning.LimitsOfEntries | exportbundle/reader.go:31-42 | each limit on a member of an entry is the length of the longest value in shape |
| ExportMeaning.LimitOfIds | exportbundle/reader.go:44 | and no chain id in shape is longer than the length from which ids are digested |
| ExportMeaning.LimitsOfPairs | exportbundle/reader.go:31-43 | and the limits on signatures and disclosed contents are those of their base64 |
| ExportMeaning.SignedBytes | sink/record_envelope.go:63-114 | the bytes the sink signs, for exactly the rows that every shape check passes |
| ExportMeaning.EnvelopeKept | sink/record_envelope.go:63-114 | a row the sink signs is verified over the very bytes that were signed, whatever export lies between |
| Ordering.OrderIndependent | linker/order.go:98-133 | any arrangement in the comparator's order is the one order there is |
| Ordering.EarlierTotal | linker/order.go:125-133 | the comparator is strict, and total on inputs whose ids differ (Linking.LinkedByArrival says which of two comes first) |
| ByteOrder.LessIs | linker/order.go:125-133 | of two ids the smaller is the one with the smaller byte where they first differ, or the one that is the start of the other |
| Ordering.PermutedSame | linker/order.go:98-133 | whatever order a batch was given in, it is linked in the same |
| Linking.LinkedByArrival | linker/order.go:98-133 | what is linked stands by the time of arrival and, of one time, by the bytes of the ids |
| Linking.LinkedExactly | linker/linker.go:342-388 | version 3: linking valid inputs is refused, at place k, exactly for a content hash out of shape or a number that is no int64 from zero on, or for another hash than the one expected |
| Linking.WireV2 | chainformat/chain_hash.go:113-135 | version 2's chain hash by its literal domain and delimiters |
| Linking.LinkRest | linker/linker.go:342-388 | version 3: linking the rest onto what a batch's start left is linking the whole, also where the sequence number leaves int64 |
| Linking.BatchIndependent | linker/doc.go:24-31 | version 3: any cut into consecutive Appends, any order of the inputs, any run ids give the same chain, and are refused alike |
| Linking.BatchDependentV2 | linker/doc.go:33-40 | version 2: no cut gives the chain that one Append gives |
| Linking.RehashedV2 | linker/doc.go:33-40 | version 2: the entry behind a cut has another chain hash than in one Append, whatever run ids are minted, if the two preimages do not collide |
| Linking.AppendsKeep | linker/linker.go:251-388 | every chain appended from empty is numbered by its indexes, linked and hashed |
| ChainLinker.Linker.ValidateBatch | linker/order.go:52-95 | accepts exactly the batches with a total order that the format can carry, clause by clause |
| ChainLinker.Linker.LinkBatch | linker/linker.go:342-388 | the loop over the batch, refusing at the first bad input or unexpected hash |
| ChainLinker.Linker.Append | linker/linker.go:251-336 | extends the chain by exactly the linked batch or changes nothing: one entry an input, the earlier arrival first and, of one arrival, the id that comes first byte by byte; the lease is free again on every path |
| ChainLinker.Linker.AppendChains | linker/append_chains.go:78-171 | gives what one Append per chain, one after another, would give, or nothing at all; in each chain the new entries stand by arrival, and no other chain changes |
| ChainLinker.NotYet | linker/append_chains.go:120-163 | reading every tail before any write is the same as reading each in its turn |
| ChainLinker.EachArrived | linker/append_chains.go:78-171 | several chains at once: in each the new entries stand by arrival |
| LinkedChains.LinkedSound | linker/linker.go:342-388 | whatever was appended in whatever calls, the verifier finds no fault in any entry's shape, place, link or hash |
| LinkedChains.LinkedExportSound | sink/export.go:126-238 | from the linker to the recipient: a chain that any calls linked, exported and read back, has no fault in any entry's shape, place, link or hash |
| HeadMemory.RecordedGrows | sink/heads.go:219-252 | a head only grows: it stays as it is, or its count goes up |
| HeadMemory.RecordedExactly | sink/heads.go:219-252 | heads of different chains are recorded together exactly when each could be alone |
| HeadMemory.SamePast | anchor/chainhash.go:141-195 | two series of a chain that share a checkpoint's hash share everything before it |
| HeadMemory.HeadsForward | sink/heads.go:441-453 | over every history, of signing steps, writes of the heads file and anything done to the folder between any two of them, recorded heads never go back: each stays, or its count goes up |
| HeadMemory.SignedKeepsAll | sink/checkpoint.go:467-482 | whatever was done to the folder, between runs or within one, a checkpoint is signed only onto a series that holds every head ever recorded for the chain |
| HeadMemory.SignedKeepsPast | sink/checkpoint.go:467-482 | so in any history a new checkpoint goes onto a series whose checkpoints up to each recorded head are, one by one, those of the series it was recorded for |
| Checkpoints.HeadsFile.SetHeads | sink/heads.go:219-252 | all of them in one write or none, also when the write lands and reports an error |
| Checkpoints.Checkpointer.Flush | sink/heads.go:475-493 | the queue is written at once, and refused only for a hash that is none |
| Checkpoints.Checkpointer.Visit | sink/checkpoint.go:449-595 | a series that does not hold its head is left alone; any other gets one checkpoint exactly when the chain was read, is clean and has other entries than its last checkpoint covers, with the count and the ends of the entries seen, and then its head |
| Checkpoints.Checkpointer.Checkpoint | sink/checkpoint.go:393-658 | a run, crashed or not, whatever is done to the folder meanwhile, goes on as such a history and signs once a chain at most; one that ends well has looked at every chain, signed every checkpoint that was due as the chain was found, and recorded the head of everything it signed |
| Checkpoints.Flushed | sink/heads.go:466-493 | every queued head can be recorded, also when its series is no longer in the folder, and the write is a step of the history |

## Left out

- CheckpointReading.CheckpointReader.Skip: a value where none is defined is read past by the grammar's own function; that the reader's loops do the same is `BundleReader.Reader.SkipValue`.
- ChainVerifier.CheckChain: problems are a map from code to count and first index; the order in which they are listed is not part of it.
- Timestamps.ParseFormatted: instants before the year 0000 are not modelled; the code refuses them before anything is hashed.
- SinkProtocol.Sink.Commit: entry ids and chain ids come from a counter, so that no two are equal; the source draws 128 random bits. The pin on predicted chain hashes is stated for the linker (`Linking.LinkOne`), not repeated in the sink, where an append lands at its predicted place or not at all.
- SinkProtocol.Sink.Presign: parallel signing is one step that gives every signature or fails.
- SinkProtocol.Sink.Rewrite: a file's free pages are a set of chains whose deleted rows it may still hold; pages and compaction themselves are not modelled.
- Record validation by regular expressions, key files, key generation, ML-DSA, SHA-512, canonical JSON and NFC: library code, or predicates and parameters here.
- File locks, fsync, renames, symbolic links and paging: one file transaction is one step, with one writer at a time.
- BundleExporter.Exporter.Export: the selection (a subject's chains, all chains) is resolved before it; cancellation, read errors and the operator's summary are not modelled.
- BundleExporter.Exporter.Chain: a chain's rows are given in order; reading them a page at a time is not modelled.
- Frontier.Marshal: the text of a digest is a parameter with its inverse.
- Checkpoints.Checkpointer.Visit: everything Verify checks of a chain besides its checkpoint series is one boolean of what the run sees; signing and the file names are left out. Looking at one chain and writing its checkpoint is one step; the folder may change before it, after it and before the heads are written.
- Checkpoints.Checkpointer.Flush: heads kept by a caller's own CheckpointHeads, which takes them one by one, are not modelled.
- ChainLinker.Linker.Append: clocks and the random run id are parameters; a store that fails while reading is left out.
- The class `Reader` keeps its fields in three records (what was found, what was built, the names), which the source keeps side by side.
- The `verify` and `store` packages, the command line, the MCP server, scripts and human-readable output are not modelled.
