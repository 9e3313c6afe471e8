# Models and proofs for the PoRep Market command line

This project models three parts of the command line that have to be right for money and data not to be lost, and proves
what they promise. It verifies with `dafny verify dfyconfig.toml`.

**Piece sets and piece CIDs.** A manifest of pieces is sorted, checked for duplicates, padded to a power of two and hashed
into a Merkle tree whose commitment goes on chain (`PieceSetCommitment`). Keccak is symbolic: one free constructor for
each hash domain. A piece CID is read from base32 and varints, its payload is sized for an Fr32 tree, and a PieceCID v2
is built from both (`Uvarint`, `Base32`, `PieceCid`, over the digit arithmetic of `Positional`). `SubmitDdo` turns the
rows of a piece set into submissions with identifiers of their own (`CurioIdentifier`), and `SubmitLoop` posts them to a
Curio server that changes by itself, in runs that may be interrupted anywhere.

**The V1 to V2 migration.** `AdoptionPlan` is the arithmetic of a plan: which claims to extend, to which terms, in which
batches, and what to check afterwards. `MigrationChain` is the chain as a machine of events: transactions are broadcast,
wait in nonce order, land or revert, while epochs pass, V1 claims are dropped, the admin changes the V2 deal's size or
the padding, rails are terminated by others and other transactions are sent. `MaySend` says what the tool owes that
chain at each broadcast, and every sequence of events that respects it is proved safe. `MigrationClient` holds the
commands `adopt-v1-claims`, `finish-migration` and `close-v1-deal` as programs: the world moves before every read, and a
run is killed when it is out of reads. What else its surroundings answer is an input, and a run that ends early names
the answer, or the reason with the chains that show it. That each guard is where it has to be is the proof that each
broadcast meets `MaySend`; any sequence of commands is then safe, however each of them ends. `SectorExtension` is the
selection of sectors that the provider still has to extend.

**Pages.** `Pagination` holds the three loops that read contract lists page by page.

Small shared modules: `Wrappers` (results), `Lists` (distinct lists and their elements).

## What was found

- `PieceSet.proof` accepts negative indices, which count from the end of the padded width, and for a single piece any
  index at all; `PieceSetCommitment.ProofComplete` gives the exact set of indices.
- Two CID readers differ on CIDs whose varints are longer than they need to be: only the four-varint reader takes them.
  They agree on 39-byte CIDs (`SubmitDdo.ReadersAgree`, `SubmitDdo.LongVarintOnlyReadByOne`).
- `piece_cid_v1_to_v2` fails with a plain `ValueError` from `bytes([tree_height])` beyond 127 * 2^253 payload bytes
  (`PieceCid.ConvertiblePayloads`), and what it builds reads back up to the varint decoder's 2^70 padding
  (`PieceCid.V2RoundTrip`).
- A 401 answer to a status request counts as "no such deal", so that a posted deal is posted again exactly then
  (`SubmitLoop.RerunsRepostExactlyWhen`).
- `finish-migration` reads the adapter's bytes before it waits for pending transactions, and an adoption of an interrupted
  run may land in between. Until the requested size is changed or the padding lowered that is harmless: every finish
  lands within the padding (`MigrationChain.FinishesWithinPadding`), and what is checked at the read is exactly enough
  (`MigrationChain.FinishCheckSuffices`). The admin can replace the manifest of the V2 deal by a
  smaller one while it is ACCEPTED and no batch has landed; a run that has compared the size before goes on sending. When
  the V1 deal then drops the claim in flight, and the adapter accepts bytes beyond the requested size, the finish can land
  outside (`MigrationChain.FinishCanMissPadding`). An adapter that always refuses such bytes, for which its
  contract has an error (cli/services/contracts/abi/DataCapEvidenceAdapter.json:935), rules that out
  (`MigrationChain.CappedAdapterCannotMiss`);
  `MigrationChain.PaddingHoldsExactlyWhen` is the condition to check at the read for whatever terms and adapter.
- Of the checks around an adoption batch, the one that no transaction is pending before the first "is it registered
  already" read is what prevents a second registration; the same check at the send comes too late
  (`MigrationChain.CheckAtSendIsTooLate`).

## Model

| member | source | states |
|---|---|---|
| `Uvarint.EncodeUvarint` | cli/services/cid_converter.py:10-24 | the encoding loop computes the little-endian groups of seven bits, and refuses exactly the negative values |
| `Uvarint.DecodeUvarint` | cli/services/cid_converter.py:27-46 | the decoding loop, with its shifts and bitwise or, computes the sum of the groups, running out of data and overflowing after the tenth byte included |
| `Uvarint.RoundTrip` | cli/services/cid_converter.py:10-46 | an encoding at any offset, before any suffix, decodes to its value and end exactly for values below 2^70 and overflows for all others |
| `Uvarint.DecodedIsMinimal` | cli/services/cid_converter.py:27-46 | a decoded value is below 2^70 and took 1 to 10 bytes of the data, no fewer than its encoding, and as few only as the encoding itself |
| `Uvarint.PrefixFree` | cli/services/cid_converter.py:10-24 | no encoding is a prefix of another: equal concatenations have equal values and equal rests |
| `Base32.CidRoundTrip` | cli/services/cid_converter.py:49-69 | any bytes, encoded in lower case with the padding stripped, decode to themselves |
| `Base32.EncodeCidInjective` | cli/services/cid_converter.py:62-69 | distinct bytes have distinct strings |
| `Base32.SpellingsOfOneByte` | cli/services/cid_converter.py:49-59 | the decoder is not injective: case, explicit padding and unused bits of the last digit do not count |
| `PieceCid.ReadsExactlyCommP` | cli/services/cid_converter.py:72-101 | the reader returns a digest exactly for the data that is four varints, in any spelling, of the CIDv1 CommP values, followed by those 32 bytes and nothing else |
| `PieceCid.RefusedCids` | cli/services/cid_converter.py:72-101 | a CID is refused for what is wrong with it: the first varint that cannot be read, the version, codec, multihash code or digest size, or too few or too many bytes |
| `PieceCid.HeightIsLeast` | cli/services/cid_converter.py:104-121 | a tree of height k holds the payload exactly when k is at least the chosen height |
| `PieceCid.TreeIsExact` | cli/services/cid_converter.py:104-128 | sizing succeeds exactly from 127 bytes up, so the negative-padding error is unreachable; the payload is the capacity less the padding, and the padding is less than half the capacity |
| `PieceCid.ImpliedSizeIsLeast` | cli/services/cid_converter.py:104-133 | the piece size implied by a payload is the least power of two, from 128 bytes up, of which 127 in every 128 bytes hold the payload; there is one exactly from 127 bytes up |
| `PieceCid.HeightIsMonotone` | cli/services/cid_converter.py:114-118 | larger payloads have no smaller trees |
| `PieceCid.ConvertiblePayloads` | cli/services/cid_converter.py:140-168 | the conversion succeeds exactly when the commitment can be read and the payload is 127 to 127 * 2^253 bytes |
| `PieceCid.V2Layout` | cli/services/cid_converter.py:147-168 | byte for byte, a PieceCID v2 is 01 55 91 20, the varint of the length of the rest, the varint of the padding, the height in one byte and the commitment |
| `PieceCid.V2RoundTrip` | cli/services/cid_converter.py:140-168 | a PieceCID v2 string parses back to the commitment and exactly the payload size when the padding is below the decoder's bound, and overflows otherwise |
| `PieceCid.V2Injective` | cli/services/cid_converter.py:140-168 | equal PieceCID v2 strings have equal commitments and payload sizes, without any bound |
| `PieceSetCommitment.AcceptedPieces` | cli/services/piece_set_commitment.py:70-85 | a piece is accepted exactly with the bytes 01 81 e2 03 92 20 20 before 32 bytes of digest and a size of 1 to 2^64 - 1, and is kept as its CID, that digest and that size; the error says whether its CID cannot be decoded, is of another kind, or its size is out of range |
| `PieceSetCommitment.CanonicalOrder` | cli/services/piece_set_commitment.py:33 | digests are ordered as big-endian numbers, and sizes decide among equal ones |
| `PieceSetCommitment.SortIsOrderedPermutation` | cli/services/piece_set_commitment.py:33 | the sort orders by digest and size and is a permutation |
| `PieceSetCommitment.NeighboursSuffice` | cli/services/piece_set_commitment.py:41-43 | in a sorted list, comparing neighbours finds a duplicate exactly when there is one anywhere |
| `PieceSetCommitment.AcceptedManifests` | cli/services/piece_set_commitment.py:31-50 | a manifest is accepted exactly when every piece parses, there are 1 to 2^32 - 1, and no digest and size occur twice; what is committed to then has each of them once, in strictly ascending order |
| `PieceSetCommitment.RefusedManifests` | cli/services/piece_set_commitment.py:33-43 | a refused manifest is refused for what is wrong with it: the first piece that does not parse with its error, no pieces, too many, or the named piece, which shares digest and size with another one of the manifest |
| `PieceSetCommitment.NewPieceSet` | cli/services/piece_set_commitment.py:32-50 | the constructor computes the specified rows, size and levels, or the specified error |
| `PieceSetCommitment.BuildTree` | cli/services/piece_set_commitment.py:97-109 | the two loops compute the padded leaves and all levels up to the root |
| `PieceSetCommitment.DepthIsLeast` | cli/services/piece_set_commitment.py:98-101 | the width is the least power of two that takes all leaves |
| `PieceSetCommitment.CanonicalList` | cli/services/piece_set_commitment.py:33 | two strictly ascending lists of the same digests and sizes are equal |
| `PieceSetCommitment.RootBinds` | cli/services/piece_set_commitment.py:97-109 | equal roots have equal leaves, even for sets of different sizes |
| `PieceSetCommitment.CommitmentOfManifest` | cli/services/piece_set_commitment.py:47-60 | an accepted manifest is committed to with the number of its pieces, the sum of their sizes as the manifest gives them, and the root, in this order |
| `PieceSetCommitment.TreeOfManifest` | cli/services/piece_set_commitment.py:88-109 | the lowest level holds a leaf of index, digest and size for each row and then empty leaves, up to the least power of two; above, every hash is of the two below it, left one first |
| `PieceSetCommitment.CommitmentBinds` | cli/services/piece_set_commitment.py:31-60 | two accepted manifests have equal commitments, and equal roots, exactly when they hold the same set of digests and sizes, whatever the order and spelling |
| `PieceSetCommitment.AbiRanges` | cli/services/piece_set_commitment.py:58-60 | every number hashed for an accepted set fits its ABI type |
| `PieceSetCommitment.ProofComplete` | cli/services/piece_set_commitment.py:62-63 | the indices for which a proof is returned, exactly; folding the leaf with the proof by the index bits gives the root |
| `PieceSetCommitment.ProofSound` | cli/services/piece_set_commitment.py:62-63 | a leaf that folds to the root at any index, with any number of siblings, is exactly that row's leaf and the siblings are exactly its proof |
| `SubmitDdo.ReadersAgree` | cli/services/piece_set_commitment.py:70-85 | the fixed-prefix check accepts exactly the 39-byte CIDs that the four-varint reader accepts, with the same digest |
| `SubmitDdo.LongVarintOnlyReadByOne` | cli/services/cid_converter.py:72-101 | a CID with a two-byte version varint is read by one reader and refused by the other |
| `SubmitDdo.BuildMetadata` | cli/commands/client/submit_ddo.py:97-100 | the dictionary holds every piece's CID and size, the last piece of a key winning |
| `SubmitDdo.PiecesToSubmit` | cli/commands/client/submit_ddo.py:109-142 | the loop skips accepted rows and stops at the first row that fails, with that row's error |
| `SubmitDdo.MetadataIsFound` | cli/commands/client/submit_ddo.py:117-121 | every row finds its metadata, so that the missing-metadata error cannot occur, and what it finds is the only piece of its digest and size |
| `SubmitDdo.SubmissionMeans` | cli/commands/client/submit_ddo.py:123-134 | a submission carries the PieceCID v2 of its row's digest and file size, whose implied piece size is the row's |
| `SubmitDdo.RowIsSubmittedExactlyWhen` | cli/commands/client/submit_ddo.py:117-134 | a row of an accepted manifest is submitted exactly when its size is the least of a piece that holds the file and its CID can be read; otherwise the error is of a file below 127 bytes, or a mismatch with the size that the file does take, or of the CID |
| `SubmitDdo.DistinctRowsDistinctCids` | cli/commands/client/submit_ddo.py:123-132 | distinct rows that pass the size check get distinct PieceCIDs v2 |
| `SubmitDdo.SubmissionsAreDistinct` | cli/commands/client/submit_ddo.py:109-142 | the submissions are the rows not accepted yet, in order, with pairwise distinct PieceCIDs v2 |
| `CurioIdentifier.DeterministicUlid` | cli/services/curio_market_client.py:377-389 | the digit loop computes the 26 base-32 digits, most significant first |
| `CurioIdentifier.UlidRoundTrip` | cli/services/curio_market_client.py:377-389 | every 80-bit entropy has an identifier of ten zeros and sixteen digits that reads back as the entropy |
| `CurioIdentifier.UlidOnto` | cli/services/curio_market_client.py:377-389 | every text over the alphabet with ten leading zeros is the identifier of the 80-bit entropy it spells |
| `SubmitLoop.CurioServer.GetDealStatusOrNone` | cli/services/curio_market_client.py:269-277 | a 401 or 404 is no deal, any other error is an error |
| `SubmitLoop.CurioServer.Post` | cli/services/curio_market_client.py:372-374 | a post that is not refused files a deal under its identifier |
| `SubmitLoop.SubmitPieces` | cli/commands/client/submit_ddo.py:170-225 | the loop ends as the specified run does: same server state, same ending, same counters, wherever it is interrupted |
| `SubmitLoop.CountersCount` | cli/commands/client/submit_ddo.py:170-227 | however a run ends, one counter is the number of posts that the client heard of, which are all but one that it was killed after, and both together are the pieces it got through |
| `SubmitLoop.RunRepostsExactlyWhen` | cli/commands/client/submit_ddo.py:173-225 | one run, interrupted anywhere, loses no deal, and posts an identifier again exactly when it reaches a turn that answers 401 for a posted identifier and whose post is not refused |
| `SubmitLoop.RerunsRepostExactlyWhen` | cli/services/curio_market_client.py:269-277 | over any sequence of runs, an identifier is posted twice exactly when some turn that is reached answers 401 for an identifier posted before and its post is not refused |
| `SubmitLoop.RerunsPostOnce` | cli/commands/client/submit_ddo.py:177-180 | when a turn that is reached is answered with 401 only for an identifier without a deal, no identifier is posted twice over any sequence of runs and no deal is lost |
| `SubmitLoop.IdentifiersSeparate` | cli/services/curio_market_client.py:43-53 | identifiers are as injective as the 80 bits of the seed hash that they spell |
| `SubmitLoop.CompletedRunHoldsAll` | cli/commands/client/submit_ddo.py:170-229 | after a completed run, whatever was answered, submitted plus already submitted is the number of pieces, and Curio holds each under its identifier |
| `SubmitLoop.EachPendingRowHasItsDeal` | cli/commands/client/submit_ddo.py:82-229 | from an accepted manifest to Curio: after a completed run each row not accepted yet has its deal, of its own PieceCID v2 under its own identifier, and the counters add up to those rows |
| `Pagination.GetPayerRailIds` | cli/services/contracts/filecoin_pay.py:250-261 | the cursor loop ends for every contract with a fixed total, and returns the pages along the cursor |
| `Pagination.CursorIsFilter` | cli/services/contracts/filecoin_pay.py:248-261 | against a contract whose pages skip finalized rails, the result is the ids at exactly the positions of the rails that are not finalized, in order |
| `Pagination.CallContractPaginated` | cli/services/contract_service.py:341-360 | on a list that grows between calls, the loop that asks for 100 at a time returns the whole list as of its last call, which begins with the initial list and is within the final one, and makes no call more than that takes; both bounds given are one call for that page, one bound is an error |
| `Pagination.AllAdapterIds` | cli/migration/service.py:435-443 | the loop that advances by the page length asks for one full page after the other, returns the whole list as of its last call, which begins with the initial list and is within the final one, and makes no call more than that takes |
| `Pagination.AdapterClaimIds` | cli/migration/service.py:425-443 | pending ids before confirmed ones, both in pages of 500, the confirmed list read right after the pending one; refused exactly when the two lists share an id |
| `AdoptionPlan.PlanExists` | cli/migration/service.py:132-160 | there is a plan exactly when the source ids are some and distinct, the registered ones distinct and among them, and every missing claim is running and can be extended |
| `AdoptionPlan.RefusedPlans` | cli/migration/service.py:132-151 | a refused plan is refused for what is wrong: the foreign ids are all those registered outside the deal, the claim reported expired or not extendable is the first missing one that is |
| `AdoptionPlan.PlanPartitions` | cli/migration/service.py:144-160 | extension ids and registered ids partition the source ids; each extension is of the next missing claim and moves its end to five years from now less the reserve, past its old end; complete exactly when everything is registered |
| `AdoptionPlan.BatchesConserve` | cli/migration/service.py:101-111 | batches concatenate to the extensions in order, all but the last are full, amounts add up to the plan's; only a size that is not positive is refused |
| `AdoptionPlan.BatchOfPlan` | cli/migration/service.py:105-111 | every batch holds distinct source ids that were not registered when the plan was made |
| `AdoptionPlan.AmountOfPlan` | cli/migration/service.py:101-103 | the DataCap amount of a plan is 10^18 for each byte of the claims that are not registered yet, which is the claimed size less that of the registered ones |
| `AdoptionPlan.AmountOfBatch` | cli/migration/service.py:101-111 | batch k takes the next claims from number k times the batch size on, and its amount is 10^18 for each byte of those |
| `AdoptionPlan.AmountBytesExact` | cli/migration/service.py:373-379 | the amount's bytes read back as the amount and have no leading zero byte |
| `AdoptionPlan.OperatorRows` | cli/migration/service.py:121-129 | the operator data has one row for each extension and is refused exactly when a value leaves the uint64 range |
| `AdoptionPlan.BytesAreSum` | cli/migration/service.py:365-370 | the byte check compares with the sum of the registered claims' sizes, in whatever order the ids come |
| `AdoptionPlan.BytesOfAll` | cli/migration/service.py:339-370 | with every claim registered, the bytes that the adapter is held to are the claimed size that is checked against the V2 deal before adoption |
| `AdoptionPlan.ReceiptAccepted` | cli/migration/service.py:381-396 | a receipt is accepted exactly when all submitted claims are registered, none from outside the deal, the bytes are their sum and every term was extended |
| `AdoptionPlan.RefusedReceipts` | cli/migration/service.py:365-396 | a receipt is refused for what is wrong: exactly the submitted claims that are not registered, exactly the registered ones that are not of the deal, the bytes that differ and what they should be, or a claim whose term is not found or not extended |
| `AdoptionPlan.PaddingBoundsError` | cli/migration/service.py:163-165 | the two products say that the bytes are off by at most the padding's share of the requested size |
| `MigrationChain.StepKeepsInvariant` | cli/migration/client.py:138-165 | every admissible event, of the tool or of the world, keeps the invariant |
| `MigrationChain.LegalRunsAreSafe` | cli/migration/client.py:138-165 | along every sequence of events in which broadcasts respect `MaySend`: claims are adopted once and from the deal only, the adapter's bytes are theirs, finishing and terminating found every V1 claim registered, finishing found the bytes within the padding unless the terms were revised, terminating found that the deal had been ACTIVE, at most one termination and one settlement succeed, the latter past the end epoch |
| `MigrationChain.FinishesWithinPadding` | cli/migration/client.py:197-246 | while the requested size stays as it is and the padding is not lowered, every finish that lands with success finds all V1 claims registered and the adapter's bytes within the padding of then |
| `MigrationChain.BytesAreBounded` | cli/migration/service.py:339-347 | the size check of the first plan that was sent bounds whatever is registered later, however far the V1 deal has shrunk since |
| `MigrationChain.NoClaimAdoptedTwice` | cli/migration/client.py:143-154 | no claim is in two batches that landed, nor twice in one |
| `MigrationChain.NoticeIsBounded` | cli/migration/client.py:249-254 | the tool's termination found V2 holding all V1 claims and had been ACTIVE, and V2 holds them still; without force the rail ends at most two days after it; there is no other one, and any settlement comes after the end epoch |
| `MigrationChain.EqualCountsMeanQuiet` | cli/services/web3_service.py:509-514 | the two-read check passes exactly when nothing landed between the reads and nothing is in flight at the second |
| `MigrationChain.WaitEndsQuiet` | cli/services/web3_service.py:525-536 | when the wait loops stop, the pending count is the confirmed count and nothing is in flight |
| `MigrationChain.MaySendLasts` | cli/services/contract_service.py:264-283 | what may be sent when a command decides to may still be sent after the prompts and waits that follow |
| `MigrationChain.UnregisteredStaysSo` | cli/migration/client.py:138-150 | a batch from within the bound, read as unregistered while no adoption is in flight, may be sent at any later time |
| `MigrationChain.CheckAtSendIsTooLate` | cli/services/contract_service.py:269-274 | without the check before the loop, the check at the send passes and a claim is registered twice |
| `MigrationChain.FinishCanMissPadding` | cli/services/contracts/porep_market.py:564-583 | a legal run in which the admin makes the ACCEPTED V2 deal smaller before any evidence has landed, the bytes read are within the padding, and the finish lands outside it for the same terms; the adapter of that run accepts bytes beyond the requested size |
| `MigrationChain.CappedAdapterCannotMiss` | cli/migration/client.py:230-243 | with an adapter that refuses bytes beyond the requested size, bytes that were found within the padding once evidence had landed stay within it for those terms |
| `MigrationChain.PaddingHoldsExactlyWhen` | cli/migration/client.py:230-243 | for whatever terms, the bytes stay within the padding after they are read exactly when they are within it at the read both with and without the adoption in flight |
| `MigrationChain.FinishCheckSuffices` | cli/migration/client.py:230-236 | unless the requested size was changed or the padding lowered since before the first adoption, the bytes stay within the padding exactly when the check of `finish-migration` passes |
| `MigrationChain.MigrationCanComplete` | cli/migration/client.py:81-97 | from any quiet start with claims of an accepted size and an open rail some legal run registers everything, finishes, activates, terminates and settles |
| `MigrationClient.World.Observe` | cli/services/web3_service.py:505-536 | the world moves before a read; a run is killed exactly when it is out of reads |
| `MigrationClient.World.EnsureNoPendingTransactions` | cli/services/web3_service.py:509-514 | passing means that nothing is in flight; it stops only for a pending count that differs from the confirmed count read before it |
| `MigrationClient.World.AwaitCount` | cli/services/web3_service.py:529-532 | polls until the confirmed count has reached the pending one, and reads no further |
| `MigrationClient.World.GetAddressNonce` | cli/services/web3_service.py:516-536 | the nonce is the confirmed count, with nothing in flight; two counts that show nothing pending end the wait, at once when they are the first two, and otherwise only being killed ends it |
| `MigrationClient.World.NextNonce` | cli/services/contract_service.py:267-276 | the nonce is the confirmed count, and not below that of any transaction that was pending at the call; only a confirmed batch stops for pending transactions |
| `MigrationClient.World.Broadcast` | cli/services/contract_service.py:184-188 | a broadcast is accepted exactly with the next free nonce or in place of a pending transaction, and then holds its nonce |
| `MigrationClient.World.AwaitReceipt` | cli/services/contract_service.py:211-220 | a normal end means that this very transaction landed with success, and that no adoption is left in flight if it was one; it stops only for its failure or after all polls went by without a receipt |
| `MigrationClient.World.SignAndSendTx` | cli/services/contract_service.py:184-306 | sends at most the one transaction, only when signed, after all that were pending at the call, and returns normally only when it landed with success; it stops for pending transactions of a confirmed batch, a nonce taken since it was read, a failure or a missing receipt, and for nothing else; no adoption is in flight afterwards |
| `MigrationClient.World.RequireAllRegistered` | cli/migration/service.py:334-337 | passes exactly when every claim id that the V1 deal had at the first read was registered at the second, and then the adapter holds every V1 claim |
| `MigrationClient.World.LoadPayingPair` | cli/migration/client.py:98-101 | passing means that the pair matches, is the client's own and pays, and that the V1 rail was open; it stops only for a rail that is not |
| `MigrationClient.World.SourceClaims` | cli/migration/service.py:256-284 | one claim for each id of the V1 deal as it was read, in order, with its size on chain, all of them reported and their sum the recorded bytes; it stops only for no ids or repeated ones, an id that is not reported, or another sum |
| `MigrationClient.World.CheckAdapter` | cli/migration/service.py:349-356 | passing means that the deal was read as ACCEPTED, that posting was not finished when the check began, and that the adapter matches and is operational; it stops only for another state or for finished posting |
| `MigrationClient.World.CheckTargetSize` | cli/migration/service.py:339-347 | passing means that the claimed bytes are within the padding read at that moment, so that one list of an accepted size encloses the claims and whatever is adopted; it stops only when they are not |
| `MigrationClient.World.PlanAdoption` | cli/migration/service.py:349-363 | the plan of the V1 claims, registered ids and epoch that were read one after the other, for an ACCEPTED deal whose posting is not finished; the claimed bytes are within the padding for the size read with the V2 deal and the padding read after the claims, and the adapter's bytes those of the registered claims; a complete plan means that all V1 claims are registered; without a plan, what was read shows which of these fails |
| `MigrationClient.World.Preflight` | cli/migration/client.py:125-130 | passing means that every batch can be encoded and every call passed; it ends otherwise only for a batch that cannot, or a call that did not |
| `MigrationClient.World.AdoptBatch` | cli/migration/client.py:146-160 | sends the batch only, and only when none of it is registered; a normal end means that it is registered, nothing is from outside the deal, the bytes are those of the registered claims and the terms read back are extended; it stops for a registered claim, a readback that differs, or in sending, and takes eight reads and the polls for its receipt at most |
| `MigrationClient.World.SendPlan` | cli/migration/client.py:138-165 | with nothing in flight, the batches go out in order; a normal end means that every V1 claim is registered and the adapter's bytes are the claimed ones |
| `MigrationClient.World.CarryOutPlan` | cli/migration/client.py:106-168 | nothing is sent for a complete plan, without a prepared rail, when printing, or before every call passed and the user confirmed; otherwise the plan's batches go out in order, each signed, and a normal end means that all did |
| `MigrationClient.World.AdoptV1Claims` | cli/migration/client.py:81-168 | sends a prefix of the batches of a plan in order, all of them when it ends normally, and then every V1 claim is registered and the adapter's bytes are those of the planned claims; the size, claims, padding, ids and epoch that the plan was made from were each read by this run, in turn; nothing is sent when printing, when posting is finished or when the V1 rail is not open, nor before every check and call passed and the user confirmed; it stops only for a reason that what it read shows |
| `MigrationClient.World.FinishIsDue` | cli/migration/client.py:190-219 | nothing is left to do only for a deal read as ACTIVE or an ACCEPTED one whose posting is finished, and something only for one read as ACCEPTED whose posting was not finished at the start; it stops exactly for any other state |
| `MigrationClient.World.FinishChecks` | cli/migration/client.py:221-236 | passing means that every V1 claim was registered, that the bytes read were within the padding, read after them, of the size read with the V2 deal, and that the finish may be sent; it stops only for a missing claim or for bytes outside the padding |
| `MigrationClient.World.FinishMigration` | cli/migration/client.py:175-246 | sends at most the finish, and nothing when printing or already finished, nor before the checks passed and the user confirmed; the size, the bytes and the padding that it compared were each read by this run, in turn, and were within the padding; so are those at the landing unless the terms were revised, and they are the bytes that were read unless an adoption was in flight then; it stops only for a reason that what it read shows |
| `MigrationClient.World.WaitPastEpoch` | cli/migration/client.py:257-264 | an epoch past the given one was observed, and none of the reads before it showed one |
| `MigrationClient.World.RequireV2ReplacesV1` | cli/migration/client.py:279-296 | passes exactly when the claim ids read were among the registered ones read next and the deal had been read as ACTIVE |
| `MigrationClient.World.RequireTermination` | cli/migration/client.py:326-333 | an open rail may be terminated exactly when the claim ids read were registered, the deal was read as ACTIVE and the lockup is at most two days or forced |
| `MigrationClient.World.ClosingAction` | cli/migration/client.py:326-356 | a settled rail needs nothing, an ended one settling exactly when its end epoch was read to have passed, and an open one is terminated exactly when V2 holds the V1 claims and is ACTIVE and the lockup is at most two days or forced, and refused otherwise; what is decided may be sent then and later |
| `MigrationClient.World.Terminate` | cli/migration/client.py:374-387 | a settlement follows in the same run exactly when the rail is read to end within ten epochs, and only once its end epoch has passed |
| `MigrationClient.World.CarryOut` | cli/migration/client.py:372-390 | sends the termination, the settlement, or first the one and then the other, each signed; a settlement that was decided leaves the rail settled |
| `MigrationClient.World.CloseV1Deal` | cli/migration/client.py:306-390 | a run that ends normally sent what was decided, and nothing for a rail that needs nothing or when printing; one that stops without sending does so exactly where closing is to be refused; nothing is sent unless the preflight call passed and the user confirmed; a normal end leaves the rail settled, or terminated with its end epoch ahead, and always settled when the run started after the end epoch |
| `MigrationClient.World.RunCommand` | runbooks/migration-v1-to-v2-client.md:55-60 | a command ends only as it may: killed when out of reads, refused by one of its own questions, or stopped for one of its own reasons, as shown by what it read; printing sends nothing |
| `MigrationClient.World.RunCommands` | runbooks/migration-v1-to-v2-client.md:55-60 | any sequence of commands, each in its own surroundings and ending as it may, keeps the migration safe, including that every finish found the bytes within the padding unless the terms were revised |
| `SectorExtension.DealClaims` | cli/migration/sp.py:20-39 | the claims of the adapter's ids in order, or the first id that the provider does not hold |
| `SectorExtension.SectorExpirations` | cli/migration/sp.py:42-51 | the expiration of every sector, or the first that is not live |
| `SectorExtension.PendingStaysExtended` | cli/migration/service.py:168-182 | a sector extended at an epoch is left alone later exactly up to thirty days on, while the deal is not ACTIVE |
| `SectorExtension.ActivatedStaysExtended` | cli/migration/service.py:168-182 | and forever after activation exactly when the deal was activated within those thirty days |
| `SectorExtension.SelectedAndExtended` | cli/migration/sp.py:105-142 | a sector is selected exactly when it expires before the given epoch, or thirty days past the service of an ACTIVE deal or the proposed end of any other, and is then extended to the given epoch, or thirty and sixty days past them; others keep their expiration |
| `SectorExtension.NothingLeftToExtend` | cli/migration/sp.py:105-129 | extending what is selected of an ACTIVE deal, or to an explicit epoch, leaves nothing to select at any later epoch |
| `SectorExtension.ReselectedExactlyWhen` | cli/migration/sp.py:105-129 | through the life of a deal, an extended sector is found too short again by a run before activation exactly after more than thirty days, and by a run on the ACTIVE deal exactly when it was extended more than thirty days before the activation |
| `SectorExtension.ExtensionsAreSpaced` | cli/migration/sp.py:88-152 | over any sequence of runs through the life of a deal, two extensions of a sector are more than thirty days apart, and a sector extended while the deal is ACTIVE never is again |

## Left out

- Calls to nodes, Curio and the database, files, prompts and printing: their answers are inputs or steps of the world.
  Checks on what `MigrationChain` does not hold (addresses, actors, sectors, the rail of the V2 deal) are questions that a
  run asks of its surroundings (`MigrationClient.Question`), each answered yes or no.
- Real Keccak and SHA-256, signatures, ABI and CBOR encoding: hashes are free constructors, the identifier's seed hash is a
  parameter, and of CBOR only the uint64 range is kept.
- The inside of `multibase.decode`, which a piece set uses: it is a parameter, and where the two CID decoders meet the
  hypothesis `SubmitDdo.DecodersAgree` says that they read the CIDs of the manifest alike
  where both accept them.
- `str.upper` outside ASCII in the base32 decoder.
- Contract internals. What is used of them: Filecoin Pay terminates only an open rail, which then ends after its lockup,
  settles only a terminated one and deletes it; the lockup only shrinks; V1 claims are only dropped; only the tool
  registers claims on the adapter; the size of a claim never changes, and the adapter adds up the sizes of what it holds.
  The manifest of the V2 deal, and with it the requested size, is replaced only while the deal is ACCEPTED and before any
  evidence has landed (cli/services/contracts/porep_market.py:564-566); the padding may be set at any time. The adapter is
  not assumed to refuse anything: what is proved safe is safe for every adapter, and the one failure, that of
  `MigrationChain.FinishCanMissPadding`, is of an adapter that accepts bytes beyond the requested size.
- Nodes that lose a broadcast transaction or answer with an older state than before: counts, epochs and lists move forward
  only, and a pending count covers every transaction broadcast and not landed. An account without an actor, for which the
  nonce is 0, is left out.
- Two adopt runs on one deal at a time, which the runbook rules out (runbooks/migration-v1-to-v2-client.md:55).
- The adapter's pending and confirmed lists as two in the migration: `MigrationChain` has one list, read at once, and
  `Pagination.AdapterClaimIds` says what reading the two in pages gives.
- Claim terms on chain: a batch's readback of terms and the provider's list of claims are inputs.
- Pauses, message texts, and time: the 15-minute limit of a receipt is a number of polls, and a run's life one of reads.
- MigrationClient.World.FinishMigration: once the requested size was changed or the padding lowered after the first
  adoption was planned, it promises that the finish is within the padding only if no adoption was in flight when the bytes
  were read, because of the run of `MigrationChain.FinishCanMissPadding`.
- `pair_by_claims`, `open_source_deals`, migration status, the admin and provider commands other than sector extension:
  reads and mappings without guards of their own.
- What `sptool` does with a sector beyond taking or leaving it, and its warning about claims that end early.
- Money helpers on floating point, address wrappers, enum and record parsers, manifest field checks: only easy members.
