# Hashi operator tooling: a Dafny model

This project models the protocol-level logic of Hashi's operator tooling and of its end-to-end
harness, and proves what that logic keeps over every input and every run.

* **The environment file.** `Text`, `EnvFile` hold the parser for the operators' environment file;
  `EnvGrammar` is the grammar of what it accepts, written without it. `Shell` is an independent
  reference evaluator for the part of POSIX shell such a file can use. `EnvExpansion`, `EnvShell`,
  `EnvAgreement`, `EnvLimits`, `EnvComments`, `EnvLines` and `EnvRoundTrip` relate parser and shell.
* **Shared files on disk.** `Extraction` is the extraction of a commit's tree by racing, crashing
  processes, and `ExtractionProgress` says that none of them is ever stuck. `BuildCache` is the
  cross-process cache of built packages, `BuildCacheRules` what its processes do and when.
  `PublishedAt`, `ManifestMask`, `CacheKey` and `CacheInput` are that cache's key, and `CacheSafety`
  puts protocol and key together.
* **The severable proxy.** `TcpProxy` is the accept loop racing with `sever`, `restore` and `drop`.
* **Key provisioners.** `Rosters`, `KpBatch` and `KpHistory` are certificate rosters, batches of
  signed submissions, and every history of certificate and set rotations, under arbitrary replies.
* **Waiting and provisioning.** `Heartbeats`, `ActivationWait`, `CeremonyWait`, `Provisioning` and
  `ProvisioningRules` are the client-side loops and checks, again under arbitrary replies.
* **Two constructions of the harness.** `FundingPtb` compiles funding requests to a programmable
  transaction and gives that transaction a meaning. `ConfigOverrides`, `OverrideMeaning`,
  `OverrideRuns` and `OverrideRules` are the reordering of configuration overrides, the reordered run
  against the one-at-a-time run, and the chain's rules for accepting either.

Concurrent parts are state machines: an event per atomic step, `Enabled` and `Next`, and theorems over
`IsRun` sequences of any length. Loops of the source are methods proved against functions or
predicates. What the network, the log bucket, the clock, OpenPGP, digests and the compiler answer is a
parameter, constrained only where a lemma says so.

Six promises turn out not to hold as worded; each has counterexamples and its exact condition.

1. A file the parser accepts does not always read the same in a shell: carriage returns and Unicode
   blanks are trimmed by the parser and are ordinary characters to a shell. `DosLineDiffers` gives a
   family of such files, and `AgreementExact` says exactly which accepted files agree, wherever lines
   with a comment after their value are plain. `CommentUndoes` shows why those lines are set apart.
2. `sever` may leave one connection running, because the flag is read before the handle is stored:
   `SurvivorHappens` is such a run, `SeverBound` limits it to one and `SeverExact` says when it is none.
3. The build cache never returns a wrong artifact only if equal keys mean equal artifacts:
   `CollisionMisleads` and `CacheExact`. The hashed fields are not delimited (`HashedAlike`), so this
   holds of the computed key among packages of one shape (`ShapedCacheCorrect`), and for the copies of
   one package that the harness builds (`CopiesShareBuild`).
4. Resuming a KP-set rotation with `wait` looks at the guardian's proposal alone, and takes any key and
   any sequence number: `ResumeTakesAnyKey`, `KeyMayChange`. Sequence order and key are kept over a whole
   history if and only if every resumed rotation continues the state before it: `HistoryInvariant`.
5. The funding program is right for up to 32768 requests; beyond that its 16-bit indices wrap and it
   fails: `FundExact`.
6. Applying overrides one at a time and applying them reordered are different tests. `JointOnly`,
   `DeniedDropped` and `NotHomeRefused` are the three ways they differ; `SequentialExact` and
   `BatchedExact` characterise each run, and `RunsAgreeExact` says exactly when they answer alike.

Rows below that begin with "support:" read back the checks of one definition for the results that use them.

## Model

| member | source | states |
|---|---|---|
| `EnvFile.Expand` | crates/hashi-guardian-ops/src/env.rs:199-222 | the scanning loop terminates and computes the expansion, never rescanning inserted home text |
| `EnvExpansion.LegalExpands` | crates/hashi-guardian-ops/src/env.rs:199-222 | a text made of legal literals and HOME references expands to those literals joined with home |
| `EnvExpansion.ExpandExact` | crates/hashi-guardian-ops/src/env.rs:199-222 | expansion succeeds exactly on texts that split into such segments, with that result |
| `EnvFile.Parse` | crates/hashi-guardian-ops/src/env.rs:139-162 | the line loop computes the map that the specification collects from the lines, or its error; `EnvGrammar.FileExact`, `FileHolds` and `ErrorExact` say which map and which error that is |
| `EnvLines.AcceptsExactly` | crates/hashi-guardian-ops/src/env.rs:139-162 | the collected lines form a map if and only if none is refused and no key is set twice, whatever single lines are refused for |
| `EnvLines.HoldsExactly` | crates/hashi-guardian-ops/src/env.rs:139-162 | an accepted file holds exactly the pairs its lines set |
| `EnvLines.OrderIrrelevant` | crates/hashi-guardian-ops/src/env.rs:139-197 | permuting the lines of an accepted file gives an accepted file with the same map |
| `EnvGrammar.ValueExact` | crates/hashi-guardian-ops/src/env.rs:166-197 | a value is accepted, with this result, if and only if it is one single-quoted, double-quoted or bare body of the grammar followed by nothing, blanks, or blanks and a comment |
| `EnvGrammar.LineExact` | crates/hashi-guardian-ops/src/env.rs:139-160 | a line sets this key to this value if and only if it is an allowed key, an equals sign and such a value; it is skipped if and only if it is blank or a comment |
| `EnvGrammar.FileExact` | crates/hashi-guardian-ops/src/env.rs:139-162 | a file is accepted if and only if each line is ignored or an assignment of the grammar, and no key is assigned twice |
| `EnvGrammar.FileHolds` | crates/hashi-guardian-ops/src/env.rs:139-162 | an accepted file holds exactly the pairs that the grammar assigns on some line |
| `EnvGrammar.ErrorExact` | crates/hashi-guardian-ops/src/env.rs:139-162 | a refused file names the first line at fault, counted from one, with that line's fault |
| `EnvGrammar.MalformedExact` | crates/hashi-guardian-ops/src/env.rs:139-222 | which fault a refused line is given: no equals sign, an export prefix, a key not allowed, or a value outside the grammar |
| `EnvShell.KeysAreNames` | crates/hashi-guardian-ops/src/env.rs:17-38 | every allowed key is a shell variable name other than HOME |
| `EnvShell.ValueReads` | crates/hashi-guardian-ops/src/env.rs:166-197 | the shell reads an accepted value, bare or quoted, as one word ending where the parser says |
| `EnvShell.ValueMeans` | crates/hashi-guardian-ops/src/env.rs:166-222 | that word's value under the shell's expansion is the parser's value |
| `EnvShell.LineRuns` | crates/hashi-guardian-ops/src/env.rs:139-197 | a plain line the parser accepts runs in the shell as the assignment the parser found, or as nothing |
| `EnvAgreement.SourcingAgrees` | crates/hashi-guardian-ops/src/env.rs:17-38 | running an accepted plain file in the reference shell sets exactly the parser's map, with one home value right for every line |
| `EnvLimits.OrdinarySpaces` | crates/hashi-guardian-ops/src/env.rs:139-197 | a file whose only whitespace is space, tab and newline is plain |
| `EnvLimits.AgreementExact` | crates/hashi-guardian-ops/src/env.rs:139-222 | parser and shell agree on an accepted file, its lines with a comment after the value being plain, if and only if it is plain |
| `EnvLimits.DosLineDiffers` | crates/hashi-guardian-ops/src/env.rs:139-197 | every printable assignment with a CRLF ending is accepted and read differently by the shell |
| `EnvComments.TwiceRuns` | crates/hashi-guardian-ops/src/env.rs:166-197 | a shell reads a comment with a no-break space and an open quote into the value, across the newline |
| `EnvComments.CommentUndoes` | crates/hashi-guardian-ops/src/env.rs:139-197 | so, for every key, a file whose trailing comment follows a no-break space is not plain and still agrees: such comments cannot be admitted to the exact condition |
| `EnvRoundTrip.RoundTrip` | crates/hashi-guardian-ops/src/env.rs:139-197 | printing representable pairs as quoted assignments and parsing gives the same map back, whatever home is |
| `Extraction.StepGood` | crates/hashi-guardian-ops/src/commit.rs:244-282 | every step of every process, crashes and failed operations included, keeps each final directory full and each process consistent with its partial directory |
| `Extraction.RunGood` | crates/hashi-guardian-ops/src/commit.rs:27-41 | so it holds in every reachable state |
| `Extraction.FinalForever` | crates/hashi-guardian-ops/src/commit.rs:244-259 | a final directory holds the commit's full tree and is never removed or replaced; nothing but builds changes it |
| `Extraction.SuccessLasts` | crates/hashi-guardian-ops/src/commit.rs:27-41 | when a process succeeds its commit's tree is in place from then on |
| `Extraction.PartialUndisturbed` | crates/hashi-guardian-ops/src/commit.rs:244-259 | no other process touches a live process's partial directory |
| `Extraction.SuccessCleans` | crates/hashi-guardian-ops/src/commit.rs:252-258 | a process that extracts successfully leaves no partial directory |
| `Extraction.OnlyFailuresFail` | crates/hashi-guardian-ops/src/commit.rs:244-282 | a process whose own operations succeed does not fail, whoever wins the rename |
| `Extraction.NamesApart` | crates/hashi-guardian-ops/src/commit.rs:244-251 | partial directory names determine commit and process, and are no commit's final name |
| `ExtractionProgress.LookUses` | crates/hashi-guardian-ops/src/commit.rs:27-41 | support: in every run a process that finds its commit's directory in place ends there; without one it goes on to resolve the commit |
| `ExtractionProgress.Finishes` | crates/hashi-guardian-ops/src/commit.rs:244-282 | from every good state, as all reachable ones are, a process none of whose steps failed can finish by steps of its own, with its commit's full tree in place |
| `BuildCache.StepGood` | crates/e2e-tests/src/upgrade_flow.rs:221-271 | every step, failed reads included, keeps cache files whole and returned artifacts built for their key |
| `BuildCache.CacheCorrect` | crates/e2e-tests/src/upgrade_flow.rs:187-271 | in every run each process returns what its own package builds to, if equal keys give equal artifacts |
| `BuildCache.NeverTorn` | crates/e2e-tests/src/upgrade_flow.rs:261-271 | every cache file at every moment is the whole encoding of some package's artifact for that key |
| `BuildCache.WaitBounded` | crates/e2e-tests/src/upgrade_flow.rs:232-257 | no waiter polls more than 300 times, whatever the others do, and after that it builds |
| `BuildCache.OnlyBuildsFail` | crates/e2e-tests/src/upgrade_flow.rs:229-271 | a process fails only when its cache directory or its own build does |
| `BuildCache.CollisionMisleads` | crates/e2e-tests/src/upgrade_flow.rs:187-226 | two packages with one key and different artifacts have a run that returns the wrong one |
| `BuildCache.CacheExact` | crates/e2e-tests/src/upgrade_flow.rs:187-271 | all runs return the right artifact if and only if equal keys give equal artifacts |
| `BuildCacheRules.CachedReturns` | crates/e2e-tests/src/upgrade_flow.rs:221-271 | in every run a read that meets a cache file, first or while waiting, returns that file's artifact |
| `BuildCacheRules.MissGoesOn` | crates/e2e-tests/src/upgrade_flow.rs:221-271 | support: without a readable file a process goes on to the lock, or to look at its age |
| `BuildCacheRules.BuildsWhen` | crates/e2e-tests/src/upgrade_flow.rs:232-257 | support: a process turns to building exactly on taking the lock, after ten minutes of waiting, or on a lock gone, unreadable or over fifteen minutes old |
| `BuildCacheRules.WaitsWhen` | crates/e2e-tests/src/upgrade_flow.rs:232-257 | support: a waiter sleeps two seconds between polls and polls while its ten minutes last |
| `BuildCacheRules.LockRules` | crates/e2e-tests/src/upgrade_flow.rs:232-262 | support: a lock comes only with the builder that takes it, keeps its date, and goes only with the end of a build of its key |
| `BuildCacheRules.FileRules` | crates/e2e-tests/src/upgrade_flow.rs:261-271 | support: a cache file comes or changes by nothing but a successful rename of the whole temporary file |
| `BuildCacheRules.BuildEnds` | crates/e2e-tests/src/upgrade_flow.rs:258-271 | support: how a build ends: returned, published first if it could be written, or failed |
| `BuildCacheRules.NeverStuck` | crates/e2e-tests/src/upgrade_flow.rs:221-271 | in every run every process can take its next step, a sleeping one from the moment it is due |
| `CacheKey.WalkFiles` | crates/e2e-tests/src/upgrade_flow.rs:273-287 | the stack walk terminates and lists every file of a finite tree exactly once |
| `CacheKey.ReadDir` | crates/e2e-tests/src/upgrade_flow.rs:276-284 | one directory's files are listed and its directories stacked, nothing lost or repeated |
| `CacheKey.WalkDistinct` | crates/e2e-tests/src/upgrade_flow.rs:273-287 | with distinct sibling names no path is listed twice |
| `CacheKey.SameTreeFiles` | crates/e2e-tests/src/upgrade_flow.rs:273-287 | trees that differ only in listing order list the same bag of files |
| `CacheKey.SameSort` | crates/e2e-tests/src/upgrade_flow.rs:196-197 | any two sorts of the same distinct paths are the same sequence |
| `CacheKey.WalkExact` | crates/e2e-tests/src/upgrade_flow.rs:273-287 | a path is listed, with its contents, exactly when the entries of the tree lead to a file there |
| `CacheKey.PathLessExact` | crates/e2e-tests/src/upgrade_flow.rs:196-197 | paths are sorted by their first differing component, shorter first, each component by its first differing character |
| `CacheKey.WellNamedExact` | crates/e2e-tests/src/upgrade_flow.rs:273-287 | support: what distinct sibling names mean, all the way down |
| `CacheInput.HashInput` | crates/e2e-tests/src/upgrade_flow.rs:187-219 | the hashing loop feeds version and toolchain, then what the specification feeds of the sorted files; `CacheInput.FedOne` and `CacheInput.OneFileShows` say what that is |
| `CacheInput.RelativeExact` | crates/e2e-tests/src/upgrade_flow.rs:198-205 | support: a path is hashed as its components joined by slashes |
| `CacheInput.FedOne` | crates/e2e-tests/src/upgrade_flow.rs:198-217 | support: a file whose path starts with the component build adds nothing; any other adds its path, then its contents, the manifest's masked |
| `CacheInput.OneFileShows` | crates/e2e-tests/src/upgrade_flow.rs:198-217 | changing one file, all else equal, leaves the hashed bytes as they were exactly when it is under build/, or its contents are equal, or it is the manifest and its kept lines are |
| `PublishedAt.MaskHidesAddress` | crates/e2e-tests/src/upgrade_flow.rs:138-213 | manifests patched with any two addresses mask to the same text, and `ManifestMask` says that the mask hides nothing else |
| `ManifestMask.KeptExact` | crates/e2e-tests/src/upgrade_flow.rs:206-213 | a line is dropped exactly if published-at begins it after blanks; every other line is kept, in place |
| `ManifestMask.MaskOfLines` | crates/e2e-tests/src/upgrade_flow.rs:206-213 | masking a text of terminated lines joins exactly the kept ones |
| `ManifestMask.MaskDecides` | crates/e2e-tests/src/upgrade_flow.rs:206-213 | two manifests mask alike if and only if their kept lines are the same, up to a single empty line against none |
| `ManifestMask.PlainMaskDecides` | crates/e2e-tests/src/upgrade_flow.rs:206-213 | manifests without such lines mask alike if and only if all their lines are the same, up to the same |
| `ManifestMask.PatchFirst` | crates/e2e-tests/src/upgrade_flow.rs:138-145 | preparing inserts one published-at line right after the first package header, and goes on so with the text after it |
| `ManifestMask.PatchNothing` | crates/e2e-tests/src/upgrade_flow.rs:138-145 | support: without such a header nothing is changed |
| `CacheInput.PreparedFiles` | crates/e2e-tests/src/upgrade_flow.rs:138-145 | preparing a package changes exactly the listed manifest |
| `CacheInput.PreparedHolds` | crates/e2e-tests/src/upgrade_flow.rs:138-145 | a prepared package holds at every path what the package holds, but for the manifest at its root, which is patched |
| `CacheInput.KeyStable` | crates/e2e-tests/src/upgrade_flow.rs:138-219 | two copies of one package, listed in any order and prepared for any address, look the same to the key and are hashed from the same bytes |
| `CacheInput.Undelimited` | crates/e2e-tests/src/upgrade_flow.rs:198-217 | moving the start of a file's contents onto its name leaves the hashed bytes unchanged |
| `CacheInput.ShapeDecides` | crates/e2e-tests/src/upgrade_flow.rs:198-217 | between packages with the same paths and lengths, equal hashed bytes mean exactly: every file outside build/ has equal contents, the manifest equal lines apart from its address |
| `CacheSafety.HashedDecides` | crates/e2e-tests/src/upgrade_flow.rs:187-219 | between packages of one shape the hashed bytes are equal exactly when version, toolchain, the contents of every file outside build/ and the lines of the manifest apart from its address are |
| `CacheSafety.ShapedCacheCorrect` | crates/e2e-tests/src/upgrade_flow.rs:187-271 | with the computed key, packages of one shape and builds that depend on the inputs only, every run of the cache is right |
| `CacheSafety.CopiesShareBuild` | crates/e2e-tests/src/upgrade_flow.rs:90-271 | copies of one package prepared for different addresses share one key, and every run gives each process what its own copy builds to |
| `CacheSafety.HashedAlike` | crates/e2e-tests/src/upgrade_flow.rs:187-217 | packages with different inputs that are hashed from the same bytes |
| `TcpProxy.StepTracked` | crates/e2e-tests/src/tcp_proxy.rs:43-65 | every step keeps each running forward in the list or in the accept loop's hands |
| `TcpProxy.AlwaysTracked` | crates/e2e-tests/src/tcp_proxy.rs:43-65 | so no running forward is ever out of reach of a later sever |
| `TcpProxy.RetainKeeps` | crates/e2e-tests/src/tcp_proxy.rs:61-62 | pruning keeps exactly the running forwards |
| `TcpProxy.PushPrunes` | crates/e2e-tests/src/tcp_proxy.rs:61-63 | after a push the list is the running forwards of before, then the new one |
| `TcpProxy.SeverBound` | crates/e2e-tests/src/tcp_proxy.rs:82-92 | in every interleaving, from the end of sever until the next restore at most one forward runs |
| `TcpProxy.SeverExact` | crates/e2e-tests/src/tcp_proxy.rs:43-92 | none ever runs, if and only if the accept loop was not past its check when the drain ended |
| `TcpProxy.RefusesNew` | crates/e2e-tests/src/tcp_proxy.rs:43-53 | after the flag is stored at most one forward is spawned, for a connection already past its check |
| `TcpProxy.FlagExact` | crates/e2e-tests/src/tcp_proxy.rs:82-92 | in every run the flag is off exactly while the latest of sever and restore is a sever |
| `TcpProxy.CheckExact` | crates/e2e-tests/src/tcp_proxy.rs:43-53 | in every run a connection is let through exactly if no sever is outstanding when it is checked |
| `TcpProxy.RestoreLets` | crates/e2e-tests/src/tcp_proxy.rs:90-92 | after a restore and until the next sever every connection checked is let through |
| `TcpProxy.DrainExact` | crates/e2e-tests/src/tcp_proxy.rs:82-87 | a caller holding the lock ends with every listed forward stopped, every other one untouched and the lock free |
| `TcpProxy.AlwaysOneDrains` | crates/e2e-tests/src/tcp_proxy.rs:82-102 | no two callers ever drain at once |
| `TcpProxy.SurvivorHappens` | crates/e2e-tests/src/tcp_proxy.rs:43-92 | a run in which a connection accepted before sever outlives it |
| `TcpProxy.DropBound` | crates/e2e-tests/src/tcp_proxy.rs:95-102 | after drop at most one forward is ever running, none if the accept loop was back in accept |
| `TcpProxy.DropAlone` | crates/e2e-tests/src/tcp_proxy.rs:95-102 | from drop on, no sever, restore or second drop happens |
| `Rosters.ReplaceCert` | crates/hashi-types/src/guardian/crypto/encryption.rs:195-223 | succeeds exactly for a present old and an absent new fingerprint, exchanging just those |
| `Rosters.ReplaceRecipient` | crates/hashi-types/src/guardian/crypto/encryption.rs:348-383 | succeeds exactly so, changing one entry's recipient and ciphertext and no id |
| `Rosters.VerifyExact` | crates/hashi-types/src/guardian/crypto/encryption.rs:392-416 | equal counts and membership accept exactly when recipients equal certificates and each share is addressed to its own |
| `Rosters.RecipientExact` | crates/hashi-types/src/guardian/crypto/encryption.rs:226-268 | support: one share is verified exactly if it is recorded for the certificate and encrypted to that certificate's key alone |
| `Rosters.AssignedExact` | crates/hashi-types/src/guardian/crypto/encryption.rs:321-346 | a share id is a provisioner's exactly if the share at that place is recorded for it |
| `Rosters.ExtendsExact` | crates/hashi-types/src/guardian/crypto/encryption.rs:271-307 | a roster grows by a share exactly if the id is the next, the recipient is new and 65535 are not exceeded |
| `KpBatch.ValidateBatch` | crates/hashi-guardian-init/src/operator_rotate_kp_set.rs:264-320 | accepts, unchanged, exactly when each submission is valid, share ids differ and the old threshold is met; otherwise names the first faulty one |
| `KpBatch.AcceptedSigners` | crates/hashi-guardian-init/src/operator_rotate_kp_set.rs:264-320 | an accepted batch has pairwise distinct signers, at least the threshold and at most n |
| `KpBatch.OrderIrrelevant` | crates/hashi-guardian-init/src/operator_rotate_kp_set.rs:264-320 | acceptance does not depend on the order of submissions |
| `KpBatch.SubBatch` | crates/hashi-guardian-init/src/operator_rotate_kp_set.rs:264-320 | a sub-batch of an accepted batch is accepted exactly when it is still at the threshold |
| `KpBatch.VerifySigned` | crates/hashi-guardian/src/ceremony_mode/rotate.rs:92-158 | the agreement loop accepts exactly when all name the first one's roster and parameters |
| `KpBatch.Authorize` | crates/hashi-guardian/src/ceremony_mode/rotate.rs:50-171 | the enclave's decision on a batch, exactly |
| `KpBatch.OperatorMatchesEnclave` | crates/hashi-guardian-init/src/operator_rotate_kp_set.rs:262-320 | the operator accepts exactly the batches the enclave accepts that name the operator's own proposal |
| `KpBatch.NewParams` | crates/hashi-types/src/guardian/crypto/primitives/secret_sharing.rs:38-75 | sharing parameters are accepted exactly for a threshold from 2 to n and n up to 65535 |
| `KpHistory.CertFrame` | crates/hashi-guardian-init/src/kp_rotate_cert.rs:54-182 | whatever is replied, an accepted certificate rotation steps the sequence by one, changes exactly the signer's entry and no share id, and matches the new certificates |
| `KpHistory.HonestRotation` | crates/hashi-guardian/src/withdraw_mode/provisioner_rotate_cert.rs:43-112 | against an enclave following its rules the rotation is accepted exactly when the sequence is not exhausted |
| `KpHistory.EnclaveCertExact` | crates/hashi-guardian/src/withdraw_mode/provisioner_rotate_cert.rs:43-112 | support: the enclave rotates exactly a signer's own share, under the key and sequence it holds, to a certificate not in use, with the result stated in full |
| `KpHistory.CertRefusals` | crates/hashi-guardian-init/src/kp_rotate_cert.rs:54-118 | support: which refusal a signer outside the roster, an unchanged and a used replacement get |
| `KpHistory.SetAuthorized` | crates/hashi-guardian-init/src/operator_rotate_kp_set.rs:88-178 | whatever is replied, an accepted re-deal was signed for by the old threshold of distinct old provisioners, for exactly the roster and parameters dealt |
| `KpHistory.HonestRedeal` | crates/hashi-guardian-init/src/operator_rotate_kp_set.rs:88-178 | with the latest state verified and an acceptable batch, a dealing for the proposal is accepted if and only if its sharing sequence is greater than the latest, and becomes the state |
| `KpHistory.HonestResume` | crates/hashi-guardian-init/src/operator_rotate_kp_set.rs:182-216 | a resumed re-deal recording a rotation is accepted if and only if its new sequence is greater than the one it rotates |
| `KpHistory.ResumeChecks` | crates/hashi-guardian-init/src/operator_rotate_kp_set.rs:182-216 | support: whatever is replied, a resumed re-deal was submitted, dealt to the new roster as configured, and confirmed |
| `KpHistory.ProposalExact` | crates/hashi-types/src/guardian/s3/log_messages/ceremony.rs:45-63 | support: which state a logged proposal stands for, exactly |
| `KpHistory.RotationContinues` | crates/hashi-types/src/guardian/s3/log_messages/ceremony.rs:45-63 | support: a resumed proposal that records a rotation of the latest instance with the latest key continues it |
| `KpHistory.ResumeTakesAnyKey` | crates/hashi-guardian-init/src/operator_rotate_kp_set.rs:182-216 | after any state a resumed re-deal accepts any instance and any key from a proposal that records a new key |
| `KpHistory.KeyMayChange` | crates/hashi-guardian-init/src/operator_rotate_kp_set.rs:182-216 | every verified state has a one-step history to a different key |
| `KpHistory.StepSound` | crates/hashi-guardian-init/src/operator_rotate_kp_set.rs:88-216 | each accepted step leaves shares matching certificates; certificate rotations and submitted re-deals raise the sequence pair and keep the key; a resumed re-deal does exactly when its sequence exceeds the latest and its key is the latest |
| `KpHistory.HistoryOrdered` | crates/hashi-guardian-init/src/kp_rotate_cert.rs:119-182 | between resumed re-deals that continue, the sequence pair strictly increases and the BTC key is constant |
| `KpHistory.HistoryInvariant` | crates/hashi-guardian-init/src/operator_rotate_kp_set.rs:88-216 | over every history of certificate rotations, submitted and resumed re-deals: order and constant key if and only if every resumed one continues, and always a bijection of certificates with share ids 1 to n |
| `KpHistory.VerifiedBijective` | crates/hashi-types/src/guardian/crypto/encryption.rs:392-416 | a verified roster is a bijection between certificates and share ids |
| `Heartbeats.Summarize` | crates/hashi-guardian/src/s3_reader/heartbeat_checks.rs:137-168 | the summary holds each logged session's first and last time, and fails exactly on a foreign entry |
| `Heartbeats.MostRecentOther` | crates/hashi-guardian/src/s3_reader/heartbeat_checks.rs:173-183 | the latest heartbeat of any other session in the logs |
| `Heartbeats.CheckHeartbeats` | crates/hashi-guardian/src/s3_reader/heartbeat_checks.rs:63-90 | deciding on the summary is deciding on the logs, by the rule of `Heartbeats.CheckExact` |
| `Heartbeats.CheckExact` | crates/hashi-guardian/src/s3_reader/heartbeat_checks.rs:63-90 | the check passes if and only if all entries are heartbeats, one of the live session is at most 180 s old when the scan ends, and every other session's is at least 600 s old when it began; and which failure it is otherwise |
| `Heartbeats.RetryTimes` | crates/hashi-types/src/guardian/errors.rs:61-77 | support: a missing live session is retried after 60 s; a recent other one after the least whole seconds that make it 600 s old |
| `Heartbeats.DelaysPositive` | crates/hashi-types/src/guardian/errors.rs:61-77 | support: every retryable failure of the check asks for between 1 and 600 seconds |
| `ActivationWait.Decide` | crates/hashi-guardian-init/src/operator_activate.rs:244-269 | sleep only before the deadline of the failure's own class and never past it; fail only when not retryable or past it |
| `ActivationWait.Wait` | crates/hashi-guardian-init/src/operator_activate.rs:229-273 | for all outcomes and delays the loop ends within 902 scans, with the last scan's result |
| `ActivationWait.QuietActivates` | crates/hashi-guardian-init/src/operator_activate.rs:36-47 | if other sessions stop within five minutes less one scan and the live one keeps beating, activation succeeds |
| `ActivationWait.OkMeansQuiet` | crates/hashi-guardian-init/src/operator_activate.rs:229-273 | an activation that succeeds does so on a last scan in which the live session beat within 180 s and all others were quiet for 600 s |
| `ActivationWait.ErrMeansLate` | crates/hashi-guardian-init/src/operator_activate.rs:229-273 | one that fails does so on an unreadable log or a foreign entry, after 600 s without the live session, or after 900 s beside another |
| `ActivationWait.SleepsMean` | crates/hashi-guardian-init/src/operator_activate.rs:244-269 | every sleep lasts what its failure asks for, cut at its own deadline, and the next scan begins after it |
| `CeremonyWait.WaitForConfirmations` | crates/hashi-guardian-init/src/ceremony.rs:212-260 | success exactly at the first Completed of the pinned session after only patient replies; any other reply is an error |
| `CeremonyWait.SuccessOnce` | crates/hashi-guardian-init/src/ceremony.rs:212-260 | there is one such place and later replies do not change it |
| `CeremonyWait.OneSession` | crates/hashi-guardian-init/src/ceremony.rs:70-180 | support: a confirmed ceremony was one attested session from before initialization to completion; a resumed run never initializes |
| `CeremonyWait.ConnectExact` | crates/hashi-guardian-init/src/ceremony.rs:70-180 | support: connecting succeeds exactly under the listed conditions, and initializes exactly where it was asked to and the guardian was not |
| `Provisioning.SubmitsOnlyOwnDerivation` | crates/hashi-guardian-init/src/kp_provision.rs:133-335 | support: whatever is replied, a share is submitted only for what the provisioner derived itself, to a guardian read twice alike |
| `Provisioning.OperatorBinds` | crates/hashi-guardian-init/src/operator_provision.rs:189-206 | support: the operator finishes only with its own derivation live and in the session's record |
| `Provisioning.ProvisionersAgree` | crates/hashi-guardian-init/src/kp_provision.rs:445-558 | all submissions for one session carry the same binding |
| `Provisioning.OperatorAgrees` | crates/hashi-types/src/guardian/s3/log_messages/init.rs:69-130 | and the binding the operator armed the session with |
| `Provisioning.SameViewsAgree` | crates/hashi-guardian-init/src/operator_provision.rs:62-96 | support: under the same views both sides decide genesis alike, with the same hash |
| `Provisioning.HonestSubmits` | crates/hashi-guardian-init/src/kp_provision.rs:133-335 | under the views of a finished operator run a provisioner submits exactly when the session is live, the key on chain is the dealt one and its share opens, with the operator's binding |
| `ProvisioningRules.HonestOperator` | crates/hashi-guardian-init/src/operator_provision.rs:62-206 | against a guardian that installs and records what it is given the operator finishes exactly if the guardian was blank, genesis is decided and the ceremony's parameters and shares are the configured ones, with the binding stated |
| `ProvisioningRules.OperatorSees` | crates/hashi-guardian-init/src/operator_provision.rs:62-206 | support: everything a finished operator has seen, whatever was replied |
| `ProvisioningRules.ProvisionerSees` | crates/hashi-guardian-init/src/kp_provision.rs:133-335 | everything a submitting provisioner has seen, whatever was replied, including that the share it submits is its own and opens |
| `Provisioning.LateCommitteeRefused` | crates/hashi-guardian-init/src/kp_provision.rs:302-330 | if a serving committee appears after the operator armed genesis, every provisioner refuses |
| `FundingPtb.FundsAll` | crates/e2e-tests/src/sui_network.rs:321-357 | up to 32768 requests, execution succeeds exactly when gas covers the total, ending in the stated machine |
| `FundingPtb.WrapsBeyond` | crates/e2e-tests/src/sui_network.rs:332-346 | beyond that an amount's index wraps onto an address and execution fails |
| `FundingPtb.FundExact` | crates/e2e-tests/src/sui_network.rs:321-357 | exactly when it executes; then each address receives the sum of its requests, gas pays the total, no coin is left |
| `FundingPtb.FaucetIsOneRequest` | crates/e2e-tests/src/main.rs:738-753 | the faucet's program is the construction for one request |
| `ConfigOverrides.ApplyOverrides` | crates/e2e-tests/src/lib.rs:612-755 | the partition loop and the ordered application compute the specified reordered run |
| `ConfigOverrides.FoldAt` | crates/e2e-tests/src/lib.rs:682-755 | the left-to-right fold leaves under each key the last override routed to its store |
| `OverrideMeaning.OneExact` | packages/hashi/sources/core/proposal/types/update_epoch_config.move:80-112 | a one-entry proposal executes exactly when the entry is allowed and the result consistent |
| `OverrideMeaning.Rearranged` | crates/e2e-tests/src/lib.rs:614-629 | pulling the MPC pair out and writing it first leaves both stores as writing all in order |
| `OverrideMeaning.BatchedExact` | crates/e2e-tests/src/lib.rs:682-755 | the reordered run succeeds exactly when all it writes is allowed and the pair ends consistent, and then equals the fold |
| `OverrideMeaning.SequentialImpliesBatched` | crates/e2e-tests/src/lib.rs:612-755 | what can be applied one at a time is accepted reordered with the same result, if and only if the pair lives in the epoch store |
| `OverrideRuns.SequentialExact` | packages/hashi/sources/core/proposal/types/update_epoch_config.move:80-112 | one at a time, the run succeeds exactly when each override is allowed and the pair is consistent after each one that lands in the epoch store |
| `OverrideRuns.DeniedSuperseded` | crates/e2e-tests/src/lib.rs:614-629 | the reordered run leaves unchecked only numbers for the pair that a later one replaces |
| `OverrideRuns.RunsAgreeExact` | crates/e2e-tests/src/lib.rs:612-755 | the two runs give the same answer and stores exactly when: an accepted reordering drops no refused number and is consistent at each step in order, and an accepted sequence has its pair in the epoch store |
| `OverrideRuns.JointOnly` | packages/hashi/sources/core/mpc_config.move:93-101 | lowering both keys below the old delta: refused one at a time, accepted reordered, for all such values |
| `OverrideRuns.DeniedDropped` | crates/e2e-tests/src/lib.rs:614-629 | an out-of-range number replaced by one in range: refused one at a time, accepted reordered |
| `OverrideRuns.NotHomeRefused` | crates/e2e-tests/src/lib.rs:692-715 | a key of the pair kept in the instant store: writable one at a time, refused by the joint proposal |
| `OverrideRules.OneRule` | packages/hashi/sources/core/proposal/types/update_epoch_config.move:80-112 | a one-entry proposal executes exactly by the chain's rules spelled out, and writes that entry only |
| `OverrideRules.RunRule` | crates/e2e-tests/src/lib.rs:612-755 | the harness's run succeeds exactly when each override not replaced by a later number is taken by those rules, the pair's numbers belong to the epoch store and the pair ends consistent |
| `OverrideRules.LastExact` | crates/e2e-tests/src/lib.rs:682-755 | support: the last override of a key, by position |
| `OverrideRules.RunWrites` | crates/e2e-tests/src/lib.rs:682-755 | after a successful run each key holds its last override in the store that had it, or what it held; neither store gains or loses a key |
| `OverrideRules.FixedKept` | packages/hashi/sources/core/config/config.move:115-127 | no run changes the guardian's key, the chain's identifier or, in the epoch store, a retired setting |

## Left out

- The environment file's loader, required keys, tunnel port and proxy URL: they would only add easy members.
- Line continuation and `~user` in the reference shell: the parser refuses backslashes outside single quotes and a leading tilde, so no accepted plain file reaches them.
- EnvLimits.AgreementExact: leaves out files where a line that is not plain has a comment after its value; such a comment can undo the difference its line makes (EnvComments.CommentUndoes), so there plainness is sufficient (EnvAgreement.SourcingAgrees) and not necessary.
- Toolchain selection, build overrides and locating the built binary: single-branch string checks.
- Extraction: one build of a commit per process id at a time, a killed process takes its git and tar children along, and symbolic links inside a tree are not modelled.
- Extraction.RunGood: rename follows POSIX and fails onto a non-empty directory; other file systems are not modelled.
- BuildCache.WaitBounded: bounds the polls by the clock the waiter reads; how long one read or sleep takes is free.
- CacheKey.WalkFiles: read errors and links between directories are not modelled, and the tree does not change while it is walked.
- CacheInput.HashInput: the hash itself; keys are compared by the bytes hashed. Rewriting the version constant and adding the canary module are part of the prepared tree, not of this model.
- TcpProxy: an abort takes effect at once, where the runtime cuts a task at its next suspension; weak-memory reordering of the relaxed flag is not modelled.
- Rosters: certificates are a map from fingerprint, standing for the sorted list without duplicates; attestation of certificates and the OpenPGP message format are parameters.
- KpBatch.Authorize: decrypting a share and checking its commitment is the parameter `opens`; reconstructing and re-splitting the key is not part of this model.
- KpHistory.HistoryInvariant: certificate rotations and submitted re-deals read the latest state; two operators racing on the log are not modelled.
- ActivationWait.Wait: one clock stands for the monotonic and the wall clock, and a decision is made at the moment its scan completes.
- The checks of activated and provisioned standby information outside the wait: straight-line comparisons.
- CeremonyWait.WaitForConfirmations: progress lines and polling delays are not modelled.
- Provisioning: digests are functions of what they cover, HPKE sealing and signatures are not modelled, and a session's operator-init record is read as written once.
- FundingPtb.FundExact: the transaction's own gas fee, coin selection and the network's limits on program size, including its refusal of an empty split, are not modelled.
- ConfigOverrides.ApplyOverrides: voting to quorum and waiting for checkpoints; a run that fails part way leaves the overrides applied so far, about which nothing is stated.
- The enclave's withdrawal path, MPC, key generation, UTXO selection, limiter and the rest of the Move package.
- RPC, log-bucket, subprocess and TLS plumbing, except as arbitrary replies.
- The end-to-end scenario tests, command-line definitions, configuration structs, prompts and documentation tooling.
