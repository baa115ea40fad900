# Verification of the msb ledger

This project models `src/msb_ledger`: an append-only hash chain with repair, a Merkle tree with inclusion receipts, a
signed external anchor with key rotation, recovery and revocation, an off-box notary, and the migration to a second
chain format. The results cross these parts: what an accepted anchor says about the live history, what a receipt says
about a position, what a v2 head says about the v1 records under it.

Where the source computes, the model has functions; where it changes state, it has classes and loops that are proved
against those functions, and the main results are lemmas about the functions.

| file | models |
|---|---|
| `Text.dfy`, `TextForm.dfy`, `Sha.dfy` | UTF-8, hexadecimal, decimal, joined lines; SHA-256 as an uninterpreted function |
| `Json.dfy`, `JsonProofs.dfy`, `JsonForm.dfy`, `JsonText.dfy` | `json.dumps` and `json.loads` in the layouts the ledger uses, the canonical form, and both in plain terms |
| `WrittenTexts.dfy` | the texts that are hashed and signed, written out |
| `Merkle.dfy`, `MerkleProofs.dfy` | `merkle.py` |
| `Chain.dfy`, `Store.dfy`, `Receipts.dfy` | `audit_chain.py`: the rows and their hashes, the store, receipts against it |
| `Repairs.dfy` | repair with its token, notary check, anchor and entry, and what survives it |
| `Appenders.dfy` | concurrent appends as steps: take the lock, read the tail, insert, commit, or die |
| `Signatures.dfy`, `Registry.dfy`, `Ceremonies.dfy`, `Anchor.dfy`, `AnchorProofs.dfy`, `AnchorVerdicts.dfy` | `chain_anchor.py`: key custody, snapshots, verification |
| `Anchored.dfy`, `Daemon.dfy` | the wrapper that signs after each append, and runs of the daily check |
| `Notary.dfy`, `NotaryProofs.dfy`, `NotaryHealth.dfy`, `NotaryVerdicts.dfy` | `notary.py` with `LocalDirSink` as the remote |
| `Segment.dfy`, `SegmentProofs.dfy` | `audit_v2.py` and `V2Segment` |
| `Export.dfy`, `Migration.dfy`, `MigrationProofs.dfy` | the v1 exporter's checks and `MigrationBarrier.run` with failures and crashes |

## Assumptions

- **Hash.** `SHA256` is a constant function about which nothing is known. No function to 32 bytes is injective on all
  byte strings, so a result that rests on collision resistance names what was hashed: `Ideal(known)` says that the
  messages in `known` do not collide and do not hash to 32 zero bytes (the genesis text), and predicates such as
  `RowsKnown` and `TreeKnown` say which messages `known` must hold.
- **Signatures.** A signature names its key, algorithm and message, and verifies for these only; its bytes read back as
  it. Public keys are byte strings, in hexadecimal where they are signed.
- **Text.** A string is a sequence of Unicode scalar values, so a lone surrogate, which Python strings may hold, is
  refused where the code would fail later, at `encode`. Floats are kept as the literals that write them.
- **Function values.** A few definitions (`Chain.PARSE_PAYLOAD`, `Registry.SIGNED_TEXT` and others) are constants whose
  type says that they equal a function at every argument. They are that function; the form only keeps its definition
  out of proofs that do not need it.
- **Time.** A timestamp is a string; nothing is claimed about its order. The stamp of a notary object is assumed to have
  the characters of an ISO time.

## Where the code and its documentation differ

- `ChainAnchor.verify` is described as accepting an anchor signed by the registered recovery key. It checks the signature
  under the verifier's own key (src/msb_ledger/chain_anchor.py:454-455, 614), so a verifier with the primary key rejects every such anchor
  (`AnchorProofs.RecoveryAnchorRejected`).
- `is_registered` is described as covering every key ever authorized. A key that was never rotated drops out after a
  recovery by another key; `Registry.KeyDropsOut` says exactly when, `Registry.BootstrapKeyForgotten` gives the run.
- A revoked key is described as not accepted for new anchors (src/msb_ledger/chain_anchor.py:191-192). Only the key the record names is looked up,
  so a revoked key's signature passes under the recovery key's name: `AnchorProofs.RevokedSignerPasses` says exactly
  when, `AnchorProofs.RevokedSignerTrusted` gives the case.
- `revoke` is described as signed by the current key (src/msb_ledger/chain_anchor.py:527-528). The code does not ask who the signer is:
  `Registry.RevocationSigner` and `Registry.StrangerRevokes`.
- An anchor signed over the empty chain is never stale (`AnchorProofs.EmptyAnchorReadsAsReplacement`).
- `notarize` reports success past entry 999999, whose object names no longer match the pattern
  (`NotaryProofs.NotarizeConverges`, `NotaryProofs.SuccessWithoutCopy`).
- `block_migration` is described as keeping both v1 and v2 writes blocked (src/msb_ledger/audit_chain.py:395). `V2Segment.append` never looks at the
  migration state: a blocked segment is still written (`MigrationProofs.BlockedSegmentStillWritten`), and an append while
  v1 is active is what breaks the barrier, for good (`MigrationProofs.RunIsSafe`).
- Any failure of a migration is described as leaving the live chain on verified v1 (src/msb_ledger/migration.py:3-6);
  `MigrationProofs.FailureLeavesV1` says which failures do. The lock of an attempt is described as covering the complete
  state transition (src/msb_ledger/migration.py:195-197), but `V2Segment.append` takes another one: an append by others can fall between the look
  at the empty segment and the attempt's first record, and if the attempt then reopens v1, the barrier is broken
  (`MigrationProofs.AttemptIsSafe`).
- An attempt on an active migration that fails overwrites the manifest by one without a head (src/msb_ledger/migration.py:286-299); from then on
  no attempt reports that v2 is active, though nothing is wrong (`MigrationProofs.RerunReports`).
- `verify` of the notary reports that local and remote histories agree (src/msb_ledger/notary.py:413). It compares no object with its line and
  checks only the last line: `NotaryHealth.VerifyExactly` says what healthy means, `NotaryHealth.CopiesHealthy` and
  `NotaryHealth.VerifyIgnoresHistory` give the cases.
- The cross-check is described as keeping repair from laundering a tampered chain (src/msb_ledger/audit_chain.py:524-533). It looks for the signed tip
  among the stored hashes only: `Repairs.CheckPassesExactly`, `Repairs.NotarizedSurvives`, `Repairs.LaunderedEdit`.
- A receipt is described as valid while and only while its record is the one committed (src/msb_ledger/audit_chain.py:694-696). That holds against
  the root it was issued under (`Receipts.ReceiptCertifiesRecord`); against the live root, the default, it ends with the
  next append (`Receipts.LiveRootReceiptEnds`).
- The second replacement in an object's stamp, of "+00:00" by "Z", never applies, because the colons are already gone
  (src/msb_ledger/notary.py:283, `NotaryProofs.StampDropsColons`).

## Model

| member | source | states |
|---|---|---|
| JsonProofs.LoadsPrint | src/msb_ledger/audit_chain.py:420-427 | reading the text json.dumps writes gives the value back, entry order included, in each of the three layouts, strict or not |
| JsonProofs.LoadsPrintLine | src/msb_ledger/notary.py:240-245 | the same with the newline that ends a log line |
| JsonProofs.PrintInjective | src/msb_ledger/audit_v2.py:69-83 | two values with one text are one value |
| JsonProofs.NormWellFormed | src/msb_ledger/audit_v2.py:77-83 | putting keys in order keeps a value well formed and finite, and doing it again changes nothing |
| JsonProofs.CanonicalRoundTrip | src/msb_ledger/audit_v2.py:69-83 | the strict reader applied to the canonical text gives the value with its keys in order, whose canonical text is the same |
| JsonProofs.CanonicalIffSame | src/msb_ledger/audit_v2.py:69-83 | two values have one canonical text exactly when they are equal as tagged values, whatever the insertion order of their keys |
| JsonProofs.LoadsWellFormed | src/msb_ledger/audit_v2.py:137-139 | whatever text is parsed, the value has distinct keys and proper number literals |
| JsonProofs.StrictLoadsAlike | src/msb_ledger/audit_v2.py:128-139 | rejecting repeated keys changes nothing else: what the strict reader accepts, the plain reader reads alike |
| JsonForm.NormOrdersKeys | src/msb_ledger/audit_v2.py:77-83 | in every object of the sorted value neighbouring keys are in code-point order: a proper prefix first, and otherwise the one with the smaller character at the first difference |
| JsonForm.NormKeepsEntries | src/msb_ledger/audit_v2.py:77-83 | sorting leaves each key with its value, itself sorted |
| JsonForm.CanonicalIs | src/msb_ledger/audit_v2.py:69-83 | the canonical text is the text of the equal value whose keys are in that order |
| JsonText.PrintedContainers | src/msb_ledger/audit_v2.py:77-83 | items in brackets and entries in braces, in their order, one separator between neighbours |
| JsonText.CharacterWritten | src/msb_ledger/chain_anchor.py:446-447 | control characters are written with four hexadecimal digits, and with ensure_ascii all that is not printable ASCII; the rest as it is |
| JsonText.PairWritten | src/msb_ledger/chain_anchor.py:446-447 | with ensure_ascii a character beyond U+FFFF is written as its surrogate pair |
| JsonText.LetterRead | src/msb_ledger/audit_v2.py:137-139 | the eight letters after a backslash and what they stand for |
| JsonText.IntegersRead | src/msb_ledger/audit_v2.py:137-139 | an integer is read from its own numeral only, or zero from "-0" |
| JsonText.FloatsExactly | src/msb_ledger/audit_v2.py:137-139 | a number is a float exactly if a fraction, an exponent or both follow its integer, by section 6 of RFC 8259 |
| JsonText.BlanksAround | src/msb_ledger/audit_v2.py:137-139 | the four white-space characters may surround a text |
| JsonText.StartRefused | src/msb_ledger/audit_v2.py:137-139 | which first characters no text has |
| JsonText.ControlRefused | src/msb_ledger/audit_v2.py:137-139 | a bare control character in a string is refused |
| JsonText.FiniteExactly | src/msb_ledger/audit_chain.py:136-153 | finite means that no NaN and no infinity stands anywhere inside |
| JsonForm.MoreTextRefused | src/msb_ledger/audit_v2.py:137-139 | a written value followed by anything but white space is refused |
| JsonForm.RepeatedKey | src/msb_ledger/audit_v2.py:128-139 | an object text with a repeated key: the strict reader refuses it, the plain one takes the last value of each key |
| TextForm.CharacterBytes | src/msb_ledger/merkle.py:46-51 | the bytes of each character, by the table in section 3 of RFC 3629 |
| TextForm.FromHexReads | src/msb_ledger/merkle.py:148 | bytes.fromhex: two digits of either case are the next byte |
| TextForm.FromHexRefuses | src/msb_ledger/merkle.py:148 | and what is neither that nor white space between bytes is refused |
| Merkle.BuildLevels | src/msb_ledger/merkle.py:54-78 | the level loop ends, with one level per height plus the leaves, each padded as the reference tree says |
| Merkle.NextLevel | src/msb_ledger/merkle.py:69-77 | one turn of the loop takes level k to level k + 1 |
| Merkle.RootIsAlone | src/msb_ledger/merkle.py:68-77 | the last level has one node and no earlier one above the leaves has |
| Merkle.MerkleRoot | src/msb_ledger/merkle.py:81-86 | the root of the reference tree, or 64 zeros for the empty list |
| Merkle.BuildProof | src/msb_ledger/merkle.py:107-132 | refused exactly on an empty list or an index outside it; otherwise the siblings on the way up, with no sibling outside its level |
| Merkle.VerifyInclusion | src/msb_ledger/merkle.py:135-160 | accepts exactly the receipts whose path climbs to the root they name, and to the expected one |
| MerkleProofs.HonestProofAccepted | src/msb_ledger/merkle.py:107-160 | the receipt for any index of any non-empty list is accepted against the list's root |
| MerkleProofs.ReceiptSize | src/msb_ledger/merkle.py:107-132 | a path has max(1, ceil(log2 n)) siblings |
| MerkleProofs.OwnRootExpected | src/msb_ledger/merkle.py:135-160 | a receipt is accepted against a root exactly when it is accepted against the root it names, and that is the one expected, if any is |
| MerkleProofs.EmptyRoot | src/msb_ledger/merkle.py:40 | the root of the empty list is 64 zeros |
| MerkleProofs.PairRoot | src/msb_ledger/merkle.py:42-86 | the root of two records, in bytes: the digest of a one, the left leaf and the right leaf, a leaf being the digest of a zero and the text |
| MerkleProofs.WholeRoots | src/msb_ledger/merkle.py:42-86 | over two lists of 2^k records side by side: the digest of a one, the left root and the right root |
| MerkleProofs.RootOfPadded | src/msb_ledger/merkle.py:54-86 | and every list has the root of its padded list of 2^height records, so these say what each root is |
| MerkleProofs.LeafIsNoNode | src/msb_ledger/merkle.py:42-51 | a leaf digest is never a node digest |
| MerkleProofs.ReceiptSound | src/msb_ledger/merkle.py:135-160 | accepted against the root of a list, whatever path and tree size are claimed: the leaf is in the list, it is the entry at leaf_index when that is inside the list, and the path has full length |
| MerkleProofs.RootInjective | src/msb_ledger/merkle.py:54-86 | lists of equal length with equal roots are equal, through the duplicate padding |
| MerkleProofs.RootMembers | src/msb_ledger/merkle.py:54-86 | lists with one root have the same entries, whatever their lengths |
| MerkleProofs.RootDeterminesDistinct | src/msb_ledger/merkle.py:54-86 | among lists without repetitions a root belongs to one list only, whatever the lengths |
| MerkleProofs.RootExactly | src/msb_ledger/merkle.py:54-86 | two non-empty lists share a root exactly when their trees are equally high and the padding extends both to one list of 2^height entries |
| MerkleProofs.RepeatedBlockSharesRoot | src/msb_ledger/merkle.py:63-77 | the collisions this gives: an odd number of blocks of 2^k entries and the same with the last block once more, odd lists, a single entry and even lists among them |
| MerkleProofs.RepeatedLastSharesRoot | src/msb_ledger/merkle.py:63-77 | an odd list, a single entry included, and the same list with its last entry repeated share a root |
| MerkleProofs.EvenListsShareRoot | src/msb_ledger/merkle.py:72-77 | so do six entries and the same with the last two repeated |
| MerkleProofs.ClimbIgnoresHighBits | src/msb_ledger/merkle.py:142-153 | checking a path reads only as many bits of leaf_index as the path has steps |
| MerkleProofs.HonestReceiptKnown | src/msb_ledger/merkle.py:135-149 | checking an honest receipt hashes only what building the tree hashes |
| Chain.FirstBreak | src/msb_ledger/audit_chain.py:458-466 | everything before the index returned is right, and the row there is not |
| Chain.VerdictExact | src/msb_ledger/audit_chain.py:444-467 | valid exactly without a break; otherwise the rows before the first break form a valid chain and the reported seq and reason are that row's |
| Chain.AppendCannotHeal | src/msb_ledger/audit_chain.py:444-467 | whatever is appended to a broken chain, the verdict stays as it is |
| Chain.StoredTextRehashes | src/msb_ledger/audit_chain.py:420-427 | the text in the payload column parses to the payload, so verification recomputes the hash of the append |
| Chain.AppendKeepsChain | src/msb_ledger/audit_chain.py:414-430 | a row linked to the tail with the hash of its content keeps a chain valid |
| Chain.HashDeterminesRow | src/msb_ledger/audit_chain.py:112-133 | rows with one hash have one predecessor and one content, payloads compared as values |
| WrittenTexts.HashedText | src/msb_ledger/audit_chain.py:112-133 | the text that is hashed for a record, key by key |
| Chain.TipDeterminesChain | src/msb_ledger/audit_chain.py:444-467 | the last hash of a valid chain determines its length, order, contents and hashes |
| Chain.HashesDistinct | src/msb_ledger/audit_chain.py:444-467 | no two records of a valid chain share a hash |
| Chain.MisplacedLinkBreaks | src/msb_ledger/audit_chain.py:462-463 | a predecessor hash found anywhere but in its own place is where the chain breaks |
| Chain.MisplacedRowBreaks | src/msb_ledger/audit_chain.py:462-463 | a record found anywhere but in its own place is where the chain breaks, reported as a bad link |
| Chain.DeletionBreaks | experiments/harness_audit_tampering.py:91-93 | deleting any run of records short of the last breaks the chain at the gap |
| Chain.SwapBreaks | experiments/harness_audit_tampering.py:96-106 | exchanging two records breaks the chain at the first of them |
| Chain.HashSwapBreaks | experiments/harness_audit_tampering.py:96-106 | exchanging only the two hashes of two records breaks it there too |
| Chain.ReplayBreaks | experiments/harness_audit_tampering.py:119-129 | inserting a copy of any record anywhere breaks the chain at the copy, or right after it in its own place |
| Chain.EditDetected | src/msb_ledger/audit_chain.py:444-467 | an edited record goes unnoticed exactly when it is the last one, keeps its link and hashes correctly; otherwise the break is at it or right after, and at it when it keeps its stored hash |
| Store.AuditChain.constructor | src/msb_ledger/audit_chain.py:282-297 | a new store is empty, numbered from one and active |
| Store.AuditChain.Append | src/msb_ledger/audit_chain.py:403-442 | refused exactly outside V1_ACTIVE and for NaN or infinity, changing nothing; else one row with the component, type and time as passed, the text of the payload, the hash of the old tail, a correct hash and the next seq, keeping validity and the numbering |
| Store.AuditChain.VerifyChain | src/msb_ledger/audit_chain.py:444-467 | the loop reports the exact verdict |
| Store.AuditChain.Quarantine | src/msb_ledger/audit_chain.py:484-508 | records the broken seq or the active state, and changes no row |
| Store.AuditChain.FindBreak | src/msb_ledger/audit_chain.py:554-565 | the scan of repair stops at the first break with the hash before it |
| Store.AuditChain.RewriteTail | src/msb_ledger/audit_chain.py:593-607 | rows with seq at least the broken one are relinked one on top of the other, or a payload does not parse |
| Store.AuditChain.RelinkAndRecord | src/msb_ledger/audit_chain.py:590-625 | the transaction leaves a repaired table with its event, or the table as it was |
| Store.AuditChain.Repair | src/msb_ledger/audit_chain.py:550-628 | from the scan to the commit: no row changes on a valid chain or when the notary check fails or raises; else, under concurrent appends, a valid chain with the rows before the break untouched, every text in place and one event more, or the failure of exactly the payloads that do not parse; and what is reported and recorded |
| Repairs.Repair | src/msb_ledger/audit_chain.py:510-638 | the whole of it: refused exactly for a wrong operator token; a broken chain with an anchor and a log goes on exactly if the log is not empty and its last line is accepted, and is refused with the rows unchanged by a log that is empty, ends in no JSON or in an entry without a valid signature under a registered key; after the commit the new chain is anchored and that anchor appended to the log, or, without a private key, the repair stands and the call fails |
| Repairs.SecuredIsTrusted | src/msb_ledger/audit_chain.py:630-635 | with the registry's current, unrevoked key the anchor left is trusted and the log passes the check |
| Repairs.CheckPassesExactly | src/msb_ledger/audit_chain.py:572-582 | on a log that ends in a signed entry the check passes exactly when every payload parses and the signed tip is somewhere in the hash column |
| Repairs.ContentsDetermineChain | src/msb_ledger/audit_chain.py:112-133 | a valid chain is the beginning of another exactly when its contents are: the hashes follow |
| Repairs.NotarizedSurvives | src/msb_ledger/audit_chain.py:584-628 | a notarized history is the beginning of the repaired chain exactly when the table still held its contents in order |
| Repairs.LaunderedEdit | src/msb_ledger/audit_chain.py:524-533 | an edit of any record under its old hash: the break is seen, the check against the very history that was notarized passes, and repair makes a valid chain of the edit |
| Store.MakeRepairEvent | src/msb_ledger/audit_chain.py:608-623 | the event carries the broken seq, the anchor hash and the operator, and hashes correctly |
| Store.RepairEventSays | src/msb_ledger/audit_chain.py:608-623 | and what it says: the three entries of its payload, component, type and time |
| Store.RelinkedIsValid | src/msb_ledger/audit_chain.py:598-607 | relinking from the first break makes the chain valid and keeps seq, component, type, payload and timestamp of every row |
| Store.EventCompletesRepair | src/msb_ledger/audit_chain.py:608-625 | the relinked rows and the event are a repaired table |
| Store.AuditChain.BeginMigration | src/msb_ledger/audit_chain.py:365-384 | refused exactly for a blank id; else the state, the id and the time are recorded |
| Store.AuditChain.CompleteMigration | src/msb_ledger/audit_chain.py:386-388 | the state is V2_ACTIVE |
| Store.AuditChain.AbortMigration | src/msb_ledger/audit_chain.py:390-392 | the state is V1_ACTIVE again |
| Store.AuditChain.BlockMigration | src/msb_ledger/audit_chain.py:394-398 | the state is MIGRATION_BLOCKED |
| Store.AuditChain.InclusionProof | src/msb_ledger/audit_chain.py:672-681 | the receipt of the first record with that seq, or the error of an unknown one |
| Store.AuditChain.VerifyInclusion | src/msb_ledger/audit_chain.py:683-704 | accepts exactly when the receipt is accepted against the expected or live root and its leaf is the live hash at its seq |
| Receipts.ReceiptPinsPosition | src/msb_ledger/audit_chain.py:683-704 | in a valid chain, against the root of the first n records and with leaf_index < n, an accepted receipt has leaf_index == seq - 1, though the code never compares them |
| Receipts.ReceiptNamesCommittedRecord | src/msb_ledger/audit_chain.py:683-704 | without that bound, the seq still names one of the first n records |
| Receipts.PositionExactly | src/msb_ledger/audit_chain.py:683-704 | among accepted receipts leaf_index is seq - 1 exactly when it is below n |
| Receipts.ShiftedIndexAccepted | src/msb_ledger/audit_chain.py:683-704 | the other case occurs for every table and record: the honest receipt is accepted under every index that differs from its own only in bits above the path, given a tree_size beyond it |
| Receipts.PaddingPositionAccepted | src/msb_ledger/audit_chain.py:683-704 | and over an odd number of records the last one is accepted in the place of the padding |
| Receipts.ReceiptSurvivesAppends | src/msb_ledger/audit_chain.py:672-704 | an issued receipt keeps verifying against the root it was issued under after any appends |
| Receipts.ReceiptHoldsExactly | src/msb_ledger/audit_chain.py:691-704 | against the root it was issued under, an issued receipt is accepted on a live table exactly when the record at its seq has the hash it had, and against no root otherwise |
| Receipts.ReceiptCertifiesRecord | src/msb_ledger/audit_chain.py:691-704 | so, on records that hash correctly, exactly while the record there is the one that was committed |
| Receipts.LiveRootReceiptEnds | src/msb_ledger/audit_chain.py:700-701 | against the live root, the default, the first append to a valid chain ends it |
| Appenders.StepKeepsSafe | src/msb_ledger/audit_chain.py:414-430 | one step of one writer keeps the table a valid chain with seqs 1..n and old rows in front, and adds a row only by committing |
| Appenders.RunIsSafe | src/msb_ledger/audit_chain.py:414-430 | so does every interleaving of any number of writers that may die at any step; the length grows by the number of commits |
| Appenders.CommittedRows | src/msb_ledger/audit_chain.py:414-430 | and the rows committed hold, in the order of the commits, what the committing writers were called with |
| Registry.KeyRegistry.constructor | src/msb_ledger/chain_anchor.py:196-204 | a new registry has only its current key |
| Registry.KeyRegistry.Rotate | src/msb_ledger/chain_anchor.py:273-293 | one record more, which verifies, and the successor is current |
| Registry.KeyRegistry.RegisterRecovery | src/msb_ledger/chain_anchor.py:295-299 | only the recovery key changes |
| Registry.KeyRegistry.Revoke | src/msb_ledger/chain_anchor.py:301-318 | one revocation more and nothing else |
| Registry.CeremonyKeepsCustody | src/msb_ledger/chain_anchor.py:470-536 | a ceremony keeps every stored rotation verifying and the records one chain that ends at the current key, recoveries endorsing themselves |
| Registry.RunKeepsCustody | src/msb_ledger/chain_anchor.py:470-536 | so does every run of ceremonies, refused ones included, and no record is ever lost |
| Registry.RunKeepsKeys | src/msb_ledger/chain_anchor.py:257-271 | over every run a key that took part in a rotation stays registered and a revoked key stays revoked |
| Registry.KeyDropsOut | src/msb_ledger/chain_anchor.py:500-523 | exactly when a registered key becomes unknown: recovery by another key drops a current key no rotation names, and a new recovery key drops an unused old one |
| Registry.BootstrapKeyForgotten | src/msb_ledger/chain_anchor.py:500-523 | a run that gets there: no registry, register a recovery key, recover; the first key is then unknown |
| Registry.RevocationSigner | src/msb_ledger/chain_anchor.py:525-536 | an allowed revocation adds one record signed by whoever asked for it, which is the current key's signature exactly when that is the current key |
| Registry.StrangerRevokes | src/msb_ledger/chain_anchor.py:530-536 | a key the registry does not know revokes the current one |
| Ceremonies.AllowedExactly | src/msb_ledger/chain_anchor.py:470-536 | when each ceremony is allowed, in terms of the registry and the keys alone |
| Ceremonies.RefusedLeaves | src/msb_ledger/chain_anchor.py:458-536 | a refused ceremony leaves the missing current key filled in, or nothing without a private key |
| Ceremonies.RotationLeaves | src/msb_ledger/chain_anchor.py:273-293 | a rotation or recovery adds one record, with these keys, algorithms, time, reason and signature, and moves on to the new key |
| Ceremonies.OthersLeave | src/msb_ledger/chain_anchor.py:295-318 | what registering a recovery key and revoking leave |
| Ceremonies.RevokedNeverRecovers | src/msb_ledger/chain_anchor.py:500-515 | a revoked recovery key cannot recover, after any run of ceremonies |
| Ceremonies.EditedRotationFails | src/msb_ledger/chain_anchor.py:320-337 | a stored rotation with any field of its body edited verifies exactly when it is unedited |
| WrittenTexts.RotationTextIs | src/msb_ledger/chain_anchor.py:273-286 | the text that is signed in a rotation, key by key |
| WrittenTexts.RevocationTextIs | src/msb_ledger/chain_anchor.py:301-313 | and in a revocation |
| Anchor.ChainAnchor.Anchor | src/msb_ledger/chain_anchor.py:542-563 | signs the tip of the rows as they are; refused, leaving the file alone, without a private key or when a payload does not parse |
| Anchor.ChainAnchor.Verify | src/msb_ledger/chain_anchor.py:572-686 | the checks in the order of the code give the verdict the proofs are about |
| Anchor.ChainAnchor.Bootstrap | src/msb_ledger/chain_anchor.py:458-468 | fills in a missing current key and nothing else |
| Anchor.ChainAnchor.Rotate | src/msb_ledger/chain_anchor.py:470-490 | the registry advances by the ceremony and the file holds the successor's anchor |
| Anchor.ChainAnchor.RegisterRecovery | src/msb_ledger/chain_anchor.py:492-498 | the registry advances by the ceremony |
| Anchor.ChainAnchor.Recover | src/msb_ledger/chain_anchor.py:500-523 | refused without the registered, unrevoked recovery key; else the recovery key signs the tip |
| Anchor.ChainAnchor.Revoke | src/msb_ledger/chain_anchor.py:525-536 | refused for a key that is not registered; else one revocation more |
| AnchorProofs.SameTextSameClaims | src/msb_ledger/chain_anchor.py:446-456 | any snapshot with the canonical text of a signed one makes the claims of the signed one |
| AnchorProofs.RevokedSignerPasses | src/msb_ledger/chain_anchor.py:591-617 | a record signed by a revoked verifier's key passes the key checks exactly when it names the registry's recovery key instead, unrevoked, and an algorithm of either |
| AnchorProofs.RevokedSignerTrusted | src/msb_ledger/chain_anchor.py:591-617 | and then it is trusted: after registering a recovery key and revoking its own, a key still signs anchors that verify |
| AnchorProofs.RecoveryAnchorRejected | src/msb_ledger/chain_anchor.py:601-617 | an honest anchor made with another key, the recovery key included, is never accepted |
| AnchorProofs.TipInside | src/msb_ledger/chain_anchor.py:632-637 | the tip of a valid chain is among the hashes of another exactly when it is not empty and is the beginning of the other |
| AnchorProofs.AnchorVerdictExact | src/msb_ledger/chain_anchor.py:572-686 | for every valid live chain and every valid signed one: trusted exactly for the signed history, stale exactly for a proper extension of a non-empty one, replaced otherwise |
| AnchorVerdicts.RefusalsExactly | src/msb_ledger/chain_anchor.py:572-617 | each refusal with its exact condition, for every registry, record and live table |
| AnchorVerdicts.ClaimsExactly | src/msb_ledger/chain_anchor.py:627-678 | which snapshots can be compared, and what they claim |
| AnchorVerdicts.OtherTipVerdict | src/msb_ledger/chain_anchor.py:627-664 | another tip or seq on any live table, valid or not: stale by the difference exactly if the signed tip is in the hash column and the live seq is greater, and replaced otherwise |
| AnchorVerdicts.SameTipVerdict | src/msb_ledger/chain_anchor.py:665-668 | the same tip and seq: trusted exactly for the signed hash column |
| AnchorVerdicts.RootChecked | src/msb_ledger/chain_anchor.py:675-678 | the root is compared last, and only if the snapshot has one |
| AnchorVerdicts.EntriesExactly | src/msb_ledger/chain_anchor.py:720-770 | each outcome of a notary entry with its exact condition |
| WrittenTexts.SnapshotText | src/msb_ledger/chain_anchor.py:407-447 | the text that is signed in an anchor, key by key |
| WrittenTexts.AnchorText | src/msb_ledger/chain_anchor.py:542-563 | the anchor record as it stands in a notary line |
| AnchorProofs.EmptyAnchorReadsAsReplacement | src/msb_ledger/chain_anchor.py:427-429 | an anchor signed over the empty chain calls every later growth a replacement |
| AnchorProofs.FingerprintsPinHashes | src/msb_ledger/chain_anchor.py:407-444 | root and joined hash together pin a whole hash column, newlines in it or not |
| AnchorProofs.TrustPinsHashes | src/msb_ledger/chain_anchor.py:660-676 | a trusted anchor pins the hash column of the live table, valid or not |
| AnchorProofs.TrustworthySound | src/msb_ledger/audit_chain.py:202-220 | if verify_trustworthy passes, the live records have the contents of the signed ones in their order |
| AnchorProofs.HonestPassesKeyChecks | src/msb_ledger/chain_anchor.py:584-617 | an honest anchor passes its own signer's checks exactly when the registry names that key and has not revoked it |
| AnchorProofs.FreshAnchorTrusted | src/msb_ledger/chain_anchor.py:542-563 | an anchor just signed is trusted |
| AnchorProofs.EntryExactly | src/msb_ledger/chain_anchor.py:720-770 | a signed notary entry over a valid chain is accepted on a valid live chain exactly when its chain is not empty and is the beginning of the live one |
| AnchorProofs.EntryStaysAccepted | src/msb_ledger/chain_anchor.py:720-770 | a notary entry accepted under a key that took part in a rotation stays accepted through every later ceremony and append |
| AnchorProofs.RevokedForGood | src/msb_ledger/chain_anchor.py:584-600 | once a key is revoked no later verification accepts an anchor recorded under it |
| Anchored.AnchoredAuditChain.Open | src/msb_ledger/chain_anchor.py:821-849 | never overwrites an anchor, and refuses one signed by an unauthorized key |
| Anchored.AnchoredAuditChain.Append | src/msb_ledger/chain_anchor.py:855-858 | appends and signs the new tip without looking at the old anchor; with the unrevoked current key the result is trusted |
| Anchored.VerifyDaemon | src/msb_ledger/chain_anchor.py:926-939 | re-signs exactly when asked to, on a valid chain with a stale verdict |
| Daemon.ReAnchorExtends | src/msb_ledger/chain_anchor.py:930-938 | what is re-signed is valid and begins with what was signed last, whatever its seqs |
| Daemon.NeverLaunders | src/msb_ledger/chain_anchor.py:926-939 | over every run of checks, growth and arbitrary replacements of the database, each signed history begins with every one signed before |
| Daemon.ReAnchorsExactly | src/msb_ledger/chain_anchor.py:926-939 | for an honest anchor over a non-empty valid history and a valid live chain, with auto on and the key checks passed: the file then holds a new anchor over the live chain exactly when it properly extends the signed one, by however many records, and the old one otherwise |
| Daemon.SignsExactly | src/msb_ledger/chain_anchor.py:926-939 | so, over a run, exactly then does another history get signed |
| Notary.LocalDirSink.Append | src/msb_ledger/notary.py:119-124 | a push stores the whole object or nothing |
| Notary.LocalDirSink.List | src/msb_ledger/notary.py:132-135 | lists exactly the objects whose name is an entry's |
| Notary.NotaryService.RemoteSeqs | src/msb_ledger/notary.py:416-428 | the seqs of the listed names |
| Notary.NotaryService.Notarize | src/msb_ledger/notary.py:248-315 | refuses, changing neither side, exactly on a corrupt log, an unlisted remote or a remote that is ahead; else the log, the remote and the report are those of the specification |
| Notary.NotaryService.Backfill | src/msb_ledger/notary.py:301-314 | pushes again what the remote lacked, from the parsed entries, and reports whether all of it got through |
| Notary.NotaryService.Verify | src/msb_ledger/notary.py:318-414 | the local checks decide first, then the remote ones in their order |
| NotaryProofs.NameRoundTrip | src/msb_ledger/notary.py:64 | a name gives its seq back exactly when the seq has at most six digits |
| NotaryVerdicts.NameIs | src/msb_ledger/notary.py:283 | an object name, character by character |
| NotaryVerdicts.PatternExactly | src/msb_ledger/notary.py:64 | which names the pattern takes |
| NotaryVerdicts.EntryReads | src/msb_ledger/chain_anchor.py:728-750 | what is read from an entry, missing fields included |
| NotaryVerdicts.OtherEntries | src/msb_ledger/chain_anchor.py:728-730 | and what is no anchored entry |
| NotaryVerdicts.NotarizeReports | src/msb_ledger/notary.py:248-316 | on any log with times: the line added, and the exact condition of a reported success |
| NotaryVerdicts.NotarizeSends | src/msb_ledger/notary.py:281-316 | what gets through is on the remote afterwards, the new entry and each one whose seq was not listed |
| NotaryVerdicts.NotarizeStores | src/msb_ledger/notary.py:281-316 | and nothing else is: what was there, the new line, or a missing entry written again from its parsed form |
| NotaryVerdicts.LocalExactly | src/msb_ledger/notary.py:318-352 | when the log alone decides verify, and how |
| NotaryVerdicts.RemoteExactly | src/msb_ledger/notary.py:353-414 | each remote verdict with its exact condition |
| NotaryVerdicts.MissingIsBehind | src/msb_ledger/notary.py:393-410 | a missing entry is reported as behind when nothing worse is found |
| WrittenTexts.NotaryLine | src/msb_ledger/notary.py:240-269 | the line of the log, key by key |
| NotaryProofs.StampDropsColons | src/msb_ledger/notary.py:283 | the second replacement in a stamp never applies |
| NotaryProofs.IsoStampOk | src/msb_ledger/notary.py:64 | the stamp of a time in ISO characters is one that names may carry |
| NotaryProofs.LineReadsBack | src/msb_ledger/notary.py:240-245 | a written line parses to its entry and is written again as the same line |
| NotaryProofs.NotarizeKeepsHonest | src/msb_ledger/notary.py:248-315 | whatever fails, the remote holds nothing but copies of the log's lines under their names, and no object is lost |
| NotaryProofs.NotarizeConverges | src/msb_ledger/notary.py:293-315 | a call that reports success leaves every entry on the remote exactly while the log has at most 999999 entries |
| NotaryProofs.CompleteIsCopy | src/msb_ledger/notary.py:293-315 | then the seqs listed are 1..n and each seq is one object holding that line |
| NotaryProofs.RunStaysHonest | src/msb_ledger/notary.py:248-315 | honesty holds over every run of calls with any failures, and the log has one line per call |
| NotaryProofs.RunConverges | src/msb_ledger/notary.py:248-315 | from nothing, through any failures, to one success: the remote is a copy of the log |
| NotaryProofs.SuccessWithoutCopy | src/msb_ledger/notary.py:248-315 | with every push getting through, every call of a run from nothing reports success, and the remote is complete only up to 999999 of them |
| NotaryProofs.SomeRunOfLength | src/msb_ledger/notary.py:248-315 | there are such runs of every length |
| NotaryProofs.RemoteAheadRefused | src/msb_ledger/notary.py:258-264 | with an entry on the remote that the log lacks, notarize changes nothing and verify is never healthy |
| NotaryProofs.CutLogRefused | src/msb_ledger/notary.py:258-264 | in particular after the log has been cut |
| NotaryHealth.HealthyExactly | src/msb_ledger/notary.py:393-414 | between an honest log and remote: healthy exactly when the remote is complete and every entry of the log verifies against the live chain |
| NotaryHealth.HealthyHistories | src/msb_ledger/notary.py:364-414 | between an honest log and remote, with entries made over valid chains: healthy exactly when the remote is complete and every notarized history is the beginning of the live one |
| NotaryHealth.VerifyExactly | src/msb_ledger/notary.py:318-414 | between any log and any remote: healthy exactly when the log parses, its last entry is accepted, the seqs listed are 1..n, and the object taken for each seq holds some accepted entry |
| NotaryHealth.VerifyHistories | src/msb_ledger/notary.py:318-414 | whoever wrote the log and the remote, if the registered keys signed only snapshots of valid chains: healthy exactly when besides the last line and each object taken hold a signed beginning of the live chain |
| NotaryHealth.VerifyIgnoresHistory | src/msb_ledger/notary.py:338-346 | of a log that parses, the verdict depends on nothing but its length and its last line |
| NotaryHealth.CopiesHealthy | src/msb_ledger/notary.py:364-414 | a remote that holds the last entry of the log n times is healthy, and no copy of the log unless the first line is that entry too |
| NotaryHealth.WrittenEntryDecodes | src/msb_ledger/chain_anchor.py:542-563 | an anchor that was written, in a log line that was written, is read back as that anchor, up to key order |
| NotaryHealth.WrittenLineOver | src/msb_ledger/chain_anchor.py:688-697 | so the line notarize writes for an honest anchor is a signed entry over its chain |
| NotaryHealth.HonestRunHealthy | src/msb_ledger/notary.py:248-414 | honest calls from nothing, whatever pushes failed, up to one that reports success: verify is healthy, on any live table, exactly while the tip of each notarized chain is among the live hashes |
| NotaryHealth.GrowingRunHealthy | src/msb_ledger/notary.py:248-414 | in particular when each anchor was made over a beginning of the live chain |
| NotaryHealth.HonestRunHistories | src/msb_ledger/notary.py:248-414 | on any valid live chain: exactly while each notarized chain is a beginning of it |
| Segment.VerifyJsonl | src/msb_ledger/audit_v2.py:157-227 | valid exactly for segments that link to the initial hash, with count and head; otherwise the number of good records before the first bad one |
| Segment.CheckRecord | src/msb_ledger/audit_v2.py:176-217 | the checks on one record, in their order |
| Segment.V2Segment.Verify | src/msb_ledger/migration.py:74-88 | valid exactly for a non-empty segment that links to the initial hash |
| Segment.V2Segment.Append | src/msb_ledger/migration.py:90-134 | an exception and the file as it was, or exactly one line more |
| SegmentProofs.RecordReadsBack | src/msb_ledger/migration.py:128-131 | the strict reader gives the written record back, keys in order |
| SegmentProofs.PreimageSurvives | src/msb_ledger/audit_v2.py:120 | writing and reading a record back does not change what its hash covers |
| SegmentProofs.HashOfFinished | src/msb_ledger/migration.py:111-127 | the hash does not cover its own field, so the one computed over a placeholder fits the finished record |
| SegmentProofs.AppendExtends | src/msb_ledger/migration.py:90-134 | an append to a valid segment that does not raise makes it a valid segment with one record more |
| SegmentProofs.AppendSucceedsExactly | src/msb_ledger/migration.py:90-134 | on a valid segment an append raises exactly when a text is blank, a dict is not one or a number is not finite |
| SegmentProofs.AppendSucceedsWhen | src/msb_ledger/migration.py:90-134 | on any file it succeeds exactly when, besides, the file reads and its last record, or the initial hash, gives the next one a place |
| SegmentProofs.AppendedRecord | src/msb_ledger/migration.py:90-134 | the line that an append to any file writes: the layout, what was passed under the keys of the schema, the place after the last record, and a hash of the compact text without the hash |
| SegmentProofs.ShapeExactly | src/msb_ledger/audit_v2.py:96-120 | exactly which records pass the shape checks |
| SegmentProofs.RepeatedKeyRefused | src/msb_ledger/audit_v2.py:128-155 | a line whose object repeats a key is no record |
| Store.BlankExactly | src/msb_ledger/audit_v2.py:115 | which texts are blank |
| SegmentProofs.HashDeterminesRecord | src/msb_ledger/audit_v2.py:96-125 | v2 records with one hash have one content, one predecessor and one seq |
| SegmentProofs.HeadDeterminesSegment | src/msb_ledger/audit_v2.py:157-227 | the head of a non-empty valid segment determines its length, its records and what it links to |
| SegmentProofs.JoinedHeadDeterminesHistory | src/msb_ledger/audit_v2.py:162-166 | the head of a v2 segment that links to a v1 head determines every record of both chains |
| Export.VerifyRows | src/msb_ledger/audit_v1_export.py:126-141 | succeeds exactly on non-empty valid chains with seqs 1..n, though it checks link and hash the other way round, and returns their count and head |
| Export.SameChecks | src/msb_ledger/audit_v1_export.py:93-123 | on top of a hash the exporter's checks and the live verifier's agree: the hash shapes come for free |
| Export.ExportV1 | src/msb_ledger/audit_v1_export.py:174-219 | succeeds exactly where the live verifier says valid, without gaps and undisturbed |
| MigrationProofs.ExportExactly | src/msb_ledger/audit_v1_export.py:174-219 | the head that an export names, with its exact condition; a disturbed export names none |
| Migration.MigrationBarrier.Run | src/msb_ledger/migration.py:188-302 | one attempt with any failure or crash is the specified transition, and a success records state, id and times |
| Migration.MigrationBarrier.Recover | src/msb_ledger/migration.py:286-299 | the handler reopens v1 only if no segment was started, and may itself be cut short |
| Migration.MigrationBarrier.RunAgain | src/msb_ledger/migration.py:198-211 | an attempt that finds a segment |
| Migration.MigrationBarrier.RunPreparation | src/msb_ledger/migration.py:222-248 | from blocking v1 to the external check of its head |
| Migration.MigrationBarrier.RunActivation | src/msb_ledger/migration.py:250-285 | from the first v2 record to the final manifest |
| MigrationProofs.AttemptIsSound | src/msb_ledger/migration.py:188-302 | whatever fails in an attempt, wherever it dies and whoever else writes: v2 is active only on top of the verified v1 head |
| MigrationProofs.AttemptIsSafe | src/msb_ledger/migration.py:188-302 | and v1 is active only while the segment is empty, exactly unless a v2 append by others falls into an attempt that leaves v1 active |
| MigrationProofs.LateAppendsCommute | src/msb_ledger/migration.py:269-285 | v2 appends by others after the attempt's own first record might as well come after the attempt |
| MigrationProofs.OutcomeExactly | src/msb_ledger/migration.py:188-302 | every outcome of an attempt, from the step at which it fails or dies, if it comes to it, and what it finds |
| MigrationProofs.StartedExactly | src/msb_ledger/migration.py:250-299 | the state after every attempt that came to v2: active, blocked, or still migrating after a crash or in a handler cut short |
| MigrationProofs.BegunExactly | src/msb_ledger/migration.py:222-299 | and after one that had begun and not come to v2: active on v1 again, or still migrating |
| MigrationProofs.NotBegunExactly | src/msb_ledger/migration.py:188-222 | and of one that never began |
| MigrationProofs.ManifestLeft | src/msb_ledger/migration.py:224-299 | the manifest that an attempt without success leaves |
| MigrationProofs.RowsAfter | src/msb_ledger/migration.py:188-302 | the v1 rows after it |
| MigrationProofs.FirstRecordSays | src/msb_ledger/migration.py:250-269 | the first v2 record: its texts, its payload with the v1 head and the export, its authority, execution and verification |
| MigrationProofs.FailureLeavesV1 | src/msb_ledger/migration.py:286-299 | a failed or dying attempt leaves the live chain on verified v1 exactly when it was there, and it had not begun, or failed before v2 with a handler that got to reopen v1 |
| MigrationProofs.NextIsSafe | src/msb_ledger/migration.py:90-134 | one attempt, v1 append, v1 repair or v2 append keeps this exactly when it neither is nor holds such an append, or one while v1 is active |
| MigrationProofs.RunIsSafe | src/msb_ledger/migration.py:188-302 | so a run keeps it exactly when no such append occurs in it; otherwise v1 stays active beside a started segment for good |
| MigrationProofs.ActivatedJoins | src/msb_ledger/migration.py:213-285 | success means that the live head, the exported head, any head and seq the external verifier named and the predecessor of the first v2 record are the same |
| MigrationProofs.CleanRunActivates | src/msb_ledger/migration.py:188-285 | an undisturbed attempt on a valid chain succeeds exactly when the operator and the time are not blank: its own check of the segment cannot fail |
| MigrationProofs.CrashLeavesStuck | src/msb_ledger/migration.py:250-271 | a crash between the first v2 record and the activation leaves a started segment and a blocked v1 |
| MigrationProofs.StuckForGood | src/msb_ledger/migration.py:198-211 | from then on, through every run, the state stays as it is, every attempt is refused, and the segment loses nothing |
| MigrationProofs.BlockedSegmentStillWritten | src/msb_ledger/migration.py:90-134 | in whatever state, a valid segment takes a v2 record exactly when the record is acceptable: blocking does not stop it |
| MigrationProofs.CrashedSegmentStillWritten | src/msb_ledger/migration.py:90-134 | a crashed migration whose segment is written all the same |
| MigrationProofs.RerunChangesNothing | src/msb_ledger/migration.py:198-211 | running again after success changes nothing in either chain, and reports success exactly when the manifest still names the head |
| MigrationProofs.RerunReports | src/msb_ledger/migration.py:198-211 | over every run after success, a further attempt reports it exactly when it is not interrupted, the manifest named the v1 head at first, and no attempt in between failed and wrote its manifest |
| MigrationProofs.ActiveForGood | src/msb_ledger/migration.py:198-211 | what was active stays active and the v1 history under it stays as it is, through every later run |
| MigrationProofs.StartedForGood | src/msb_ledger/migration.py:198-211 | once v2 has started in a safe world, no run changes the migration state or takes a v2 record away |

## Left out

- Store.AuditChain.Append: without the refusal of keyless appends and without storage admission, single guards before the
  append (src/msb_ledger/audit_chain.py:315-356, 408-411).
- Store.AuditChain.Repair: the verdict of the notary check is a parameter here; `Repairs.Repair` computes it.
- Repairs.Repair: the operator token is compared as text, and the blank lines of a notary log are dropped beforehand.
- Anchor.ChainAnchor.Verify: without the staleness of a valid anchor by the clock (src/msb_ledger/chain_anchor.py:114-125, 677-686).
- Notary.NotaryService.Notarize: the anchor file is a parameter, RFC 3161 timestamps are absent (src/msb_ledger/notary.py:266-268,
  src/msb_ledger/chain_anchor.py:768-784), and of the remote after an entry without a time only that no object is lost.
- Export.ExportV1: whether the two fingerprints of the database file agree is a parameter (src/msb_ledger/audit_v1_export.py:189-199).
- Files, SQLite and locks: each gives one atomic step. Temporary files, `fsync`, WAL and triggers as SQL text have no
  counterpart.
- A tampered table whose `seq` values are not distinct: SQLite's primary key rules it out, so rows come in ascending seq.
- Disk-full handling (src/msb_ledger/audit_chain.py:432-438).
- Payload dicts whose keys are not strings: they are outside the declared type of `append`.
- Floats as numbers: a stored literal is written back as it is, where Python writes `repr` of the parsed float.
- Signed snapshots with fields of other types than `anchor` writes, such as `true` for a seq, a `key_algorithm` that is no text, and a last v2 record whose
  seq is not an integer: treated as the exception, where Python may compare or add.
- The order of names in a listing, which only decides which of two objects that claim one seq is read.
- Digits outside ASCII and a trailing newline in object names, which the pattern's `\d` and `$` would let through.
- `rclone`, the keychain, hardware backends, environment lookup, command lines, reports and notifications.
- The anchor and registry files as text, and file-format versions: they are read back as the values written.
- The exported JSONL and the manifests beyond the fields that are read back.
- Replacement of the anchor file in `Daemon`: runs replace the database and leave the file to the check.
