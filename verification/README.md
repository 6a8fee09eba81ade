# wispbox: a verified model of the control plane

wispbox is a control plane for a small mail server. It keeps domains, mailboxes,
aliases, relays, delivery policies, certificates and sessions in SQLite, compiles
them into Postfix and Dovecot configuration, renews certificates, and serves a
webmail API. This project models the parts that carry state, arithmetic or
translation, in Dafny 4.11, and proves what they promise. `dafny verify
dfyconfig.toml` checks all of it.

Code that changes things in place is a class or a method with loops, proved equal
to a function of the old state; lemmas then say what that function guarantees over
every run. Concurrent code is a state machine whose steps are single renames, file
reads, session-table calls or mutex sections, and the lemmas range over every
interleaving.

| File | Models |
|---|---|
| `Delivery.dfy` | relay and policy tables, the admin operations, the resolution engine |
| `Nexthops.dfy`, `Routing.dfy` | the compiler from policies to Postfix tables, with its deduplication by nexthop |
| `PostfixMaps.dfy` | printing a map as sorted text, and reading a texthash file |
| `RoutingMeaning.dfy` | the route Postfix takes by the printed tables, against the policies |
| `Logins.dfy`, `RelayTables.dfy`, `TwoRelays.dfy` | the login and TLS policy Postfix reads for each relay, and databases with two relays |
| `SenderIdentity.dfy`, `Names.dfy` | `sender_logins`, webmail's sender check, mailboxes, aliases and their validators |
| `CertFiles.dfy`, `Renewal.dfy` | certificate files, cache and handshakes; backoff and renewal times |
| `ConfigApply.dfy` | render, write, reload, failing anywhere |
| `RateLimiter.dfy` | the token bucket limiter |
| `Mailbox.dfy`, `Paging.dfy`, `Adapters.dfy`, `MessageIds.dfy` | the in-memory mailbox, both paging schemes and when they agree, opaque ids |
| `TimeFormat.dfy`, `Sessions.dfy`, `Vault.dfy` | stored timestamps, the session table, the credential vault |
| `Reply.dfy` | reply recipients, in Go and in TypeScript |
| `Text.dfy`, `StableSort.dfy` | the library functions the code leans on |

## What the code does not keep

Some statements one would expect fail on some inputs. Each is proved to hold exactly under
a condition a caller could check, and a lemma names an input on which it fails.

* "Failures never remove a working certificate" (`internal/certs/manager.go`, line 165)
  holds exactly if the attempt does not end between its two renames, and "any previously
  issued files stay in place" (line 182) exactly if it ends before the first. Between them
  the host has a new certificate with the old key, which does not load
  (`CertFiles.FailureKeepsPairExactly`; `WorkingPairRemoved`).
* "Next handshake reloads from disk" (line 248 of the same file): after an issuance deletes
  the cached pair, no later handshake sees another pair than the new one exactly if no
  handshake then stands between reading an old pair and caching it
  (`CertFiles.CacheStaysTrueExactly`, `ClearedCacheStaysTrueExactly`; `HandshakeCanCacheOldPair`).
* As long as nobody else tries the host, forces its renewal or deletes its domain, the renewal
  loop waits for the backoff after a failed attempt exactly if the host is not in the list that
  the loop is working off when the attempt fails. An administrator's attempt that fails between
  the loop's scan and the host's turn is followed by another at once
  (`Renewal.FailureHoldsBackExactly`, `GapAtLeastBackoff`; `LoopCanRetryAtOnce`). A domain
  deleted and added again is due at once, its failures still counted
  (`RecreatedIsRetriedAtOnce`).
* Two relays on one host and port with different logins "cannot coexist — fail loudly"
  (`internal/configgen/data.go`, lines 194-197). The build compares the joined texts
  `user:password`, so two different logins pass exactly if one user name, after a colon, runs
  on into the other password (`RelayTables.BuildTakesLogins`, `Logins.JoinedAlike`).
  `TwoRelays.ColonUserClashes` has user `a` with password `b:c` and user `a:b` with password
  `c`: Postfix cuts at the first colon and logs in to the second relay as the first.
* "Silently authenticate one relay with the other's credentials" (the same lines): from the
  printed `sasl_passwd` every relay reads its own user name and password exactly if no user
  name holds a colon or begins with a blank, no password ends with a blank, and relays on one
  port and, up to case, one host have one login. Validation rejects control characters only,
  and the build compares hosts as they are spelled where Postfix folds their case
  (`RelayTables.LoginsPrinted`, `Logins.PlainIsRead`; `TwoRelays.ColonUserClashes`,
  `CaseVariantsClash`, `SharedNexthopLoses`).
* Exactly the STARTTLS relays are held to encryption by the printed `tls_policy` if and only
  if relays on one port and, up to case, one host have one TLS mode
  (`RelayTables.EncryptionFitsExactly`, `EncryptionPrinted`; `TwoRelays.SharedNexthopLoses`).
* The Dovecot windows tile a folder exactly if the total rounded up to whole pages fits 32
  bits; UIDs of the in-memory mailbox increase exactly until the 32-bit counter wraps
  (`Paging.WindowsTileExactly`, `Mailbox.UidsIncreaseExactly`;
  `Paging.LargestFolderDoesNotTile`, `Mailbox.UidsWrap`).
* A new `renew_after` lies inside the certificate's life exactly if thirty days are left, or
  twice the life fits a 64-bit duration, or the life is cut off at the largest duration
  (`Renewal.RenewAfterInLife`; `RenewAfterCanPrecedeLife`).

## What is assumed

* Store calls are total and atomic; a driver error or a lost row does not occur. SQLite's
  text comparison is by bytes, and the schema's constraints hold.
* `Decrypt` undoes `Encrypt` under one instance secret and fails on an empty text.
* SHA-256 is injective, so a session row is keyed by its token; session tokens and issued
  keys never repeat. Two PEM files load as a pair exactly if one issuance made both.
* Case mapping and trimming are those of ASCII. A Go string is a sequence of bytes.
* Postfix folds the keys of a map to lower case, both when it loads the map and when it asks
  (postmap(1)), and of two entries with one folded key the first counts. It cuts what it reads
  from `sasl_passwd` at the first colon.
* Tokens of the rate limiter are reals, where the program has `float64`; clocks do not run
  backwards between calls.
* Instants are nanoseconds. Stored times are those of the years 0 to 9999.
* A service's configuration changes only when it is reloaded, and a failed reload leaves it.
* Dovecot's sequence numbers run from 1 in order of arrival, and a folder does not change
  while its pages are followed.
* The verdict of the address parser on an alias destination, the outcome of DNS checks, of
  the certificate authority, of each write and of each reload are inputs, free to be anything.

## Model

| member | source | states |
|---|---|---|
| Delivery.ReachableInv | internal/db/store_delivery.go:67-149 | in every database reachable from the fresh one there is one policy per scope, a global policy that is never `inherit`, and exactly the relay policies name a relay, which exists |
| Delivery.ApplyKeepsInv | internal/admin/core.go:205-304 | each admin operation, refused or not, keeps that invariant |
| Delivery.DeleteRelayKeepsInv | internal/db/store_delivery.go:67-86 | deleting a relay leaves no policy pointing at it, since an enabled policy blocks the deletion |
| Delivery.DeletePolicyKeepsInv | internal/db/store_delivery.go:136-149 | deleting a policy never removes the global one |
| Delivery.RunKeepsUsable | internal/delivery/delivery.go:64-113 | what validation lets in over any run: every stored relay has a bare host, a port in range, a supported TLS mode and nothing that breaks out of a map line, in its password too once decrypted |
| Delivery.ResolveExactly | internal/delivery/delivery.go:129-167 | resolution fails exactly if the governing policy names a disabled relay, and otherwise yields that policy's mode and its own relay |
| Delivery.NeverSilentlyDirect | internal/delivery/delivery.go:129-167 | over every run a domain resolves to direct only under a direct policy |
| Delivery.AcceptedIsUsable | internal/delivery/delivery.go:72-103 | what validation accepts is exactly a named relay of a known provider that is usable: bare host, clean user name, port in range, STARTTLS or TLS |
| Delivery.SavedExactly | internal/admin/core.go:205-250 | a save is accepted exactly if the trimmed relay is valid and its password clean, a new one with a user name has a password, an edited one exists, and no other relay has the name |
| Delivery.SavedRelay | internal/admin/core.go:222-247 | the row then has every field as entered, name and host trimmed, and as password the new one, or on an edit without one the one it had; no other relay and no policy changes |
| Delivery.DeletedExactly | internal/db/store_delivery.go:67-86 | a relay goes exactly if it exists and no enabled policy names it, and in a consistent database the policies stay as they are |
| Delivery.SetExactly | internal/delivery/delivery.go:170-194 | a policy is accepted exactly if its mode exists and is open to its scope, direct only where port 25 is, and a relay policy names an enabled relay |
| Delivery.PolicySet | internal/db/store_delivery.go:106-119 | it is then the policy of its scope, enabled, under the id of the one it replaces if there was one, and every other scope has the policy it had |
| Delivery.PolicyDeleted | internal/db/store_delivery.go:136-149 | a deletion takes the policy with that id from its scope unless that is the global one, leaves the other scopes theirs, and fails exactly if there is none |
| Delivery.Store.constructor | internal/migrations/0001_schema.sql:68-80 | a fresh database holds one policy: global, direct, enabled |
| Delivery.Store.PutRelay | internal/db/store_delivery.go:21-65 | creating or updating a relay keeps names unique, keeps the stored password when none is given, and changes nothing on an error |
| Delivery.Store.SaveRelay | internal/admin/core.go:205-250 | saving validates the trimmed relay and its password before anything is stored |
| Delivery.Store.DeleteRelay | internal/db/store_delivery.go:67-86 | deletion is refused exactly while an enabled policy uses the relay |
| Delivery.Store.SetPolicy | internal/delivery/delivery.go:169-194 | a policy is stored only if valid for its scope, with a relay exactly in relay mode, in the one row of its scope |
| Delivery.Store.DeletePolicy | internal/db/store_delivery.go:136-149 | only a non-global policy can be deleted |
| Nexthops.EmitAllFaithful | internal/configgen/data.go:194-237 | after the loop each nexthop has the login and TLS entry of the first relay met on it, and no entry if none was |
| Nexthops.EmitAllSucceeds | internal/configgen/data.go:211-236 | the loop succeeds exactly if every login decrypts and no two relays on one nexthop have different `user:password` texts |
| Nexthops.DedupSound | internal/configgen/data.go:194-237 | on success every relay in use looks up its own `user:password` text, and none exactly if it has none |
| Nexthops.DedupUnique | internal/configgen/data.go:194-237 | no nexthop has two entries in either table |
| Routing.Builder.TransportFor | internal/configgen/data.go:194-237 | one relay adds to the tables what the specification adds, and fails on a clash or an unreadable login |
| Routing.Builder.Route | internal/configgen/data.go:194-237 | routing one resolved scope extends the tables for the relays before it by that scope's relay |
| Routing.Builder.RouteNext | internal/configgen/data.go:249-265 | one pass of the loop over domains keeps the fields equal to the tables for the domains so far, or shows that no result exists for the whole list |
| Routing.Builder.RouteGlobal | internal/configgen/data.go:239-247 | the global policy becomes the default transport, or no list of domains compiles |
| Routing.Builder.BuildRouting | internal/configgen/data.go:189-267 | the in-place builder succeeds exactly when the tables exist, and then holds them |
| PostfixMaps.RenderMap | internal/configgen/postfix.go:37-49 | the printed map is the comment line and the pairs with a key, stably sorted by it, one line each |
| PostfixMaps.ParseMapText | internal/configgen/postfix.go:37-49 | reading a printed map back gives its sorted pairs, keys in lower case and values without outer blanks |
| PostfixMaps.LookupSorted | internal/configgen/postfix.go:41 | the stable sort changes no lookup, also when a key occurs twice |
| PostfixMaps.LookupPrinted | internal/configgen/postfix.go:37-49 | Postfix, which folds the case of keys, finds in the printed file the first pair in key order whose key matches up to case, without outer blanks |
| PostfixMaps.LookupPrintedLower | internal/configgen/postfix.go:37-49 | for keys in lower case it finds exactly what the table holds, up to outer blanks |
| PostfixMaps.PrintedMember | internal/configgen/postfix.go:37-49 | it finds something exactly if a key matches up to case, and then the value of such a pair |
| RoutingMeaning.NexthopInjective | internal/configgen/data.go:204-209 | two relays share a nexthop exactly if they share host and port |
| RoutingMeaning.LookupSender | internal/configgen/data.go:249-265 | among distinct hosted domains `@domain` finds the entry of that domain and no other |
| RoutingMeaning.CompilationPreservesMeaning | internal/configgen/data.go:189-267 | in every reachable database, whenever the build succeeds, Postfix reads from the printed `sender_transport`, else takes from the default, exactly the mode, TLS flavour, host and port the policies give each domain there is; direct exactly under a direct policy |
| RoutingMeaning.ReachableHosted | internal/db/store_mail.go:11-35 | any listing of the domains of a reachable database holds valid and distinct names |
| RoutingMeaning.BuildSucceedsExactly | internal/configgen/data.go:189-267 | the build succeeds exactly if every policy resolves, every login in use decrypts and no two relays on one host and port have different `user:password` texts |
| RelayTables.KeysFold | internal/configgen/data.go:204-209 | Postfix cannot tell two relays apart exactly if they share the port and, up to case, the host |
| Logins.JoinedAlike | internal/configgen/data.go:211-218 | two different logins have one text `user:password` exactly if the one user name is the other, a colon and some text, and the other's password that text, a colon and the one's password |
| RelayTables.BuildTakesLogins | internal/configgen/data.go:194-267 | the build succeeds exactly if every policy resolves, every login in use decrypts, and of the relays in use any two on one host and port have one user name and password, or such a colon hides the difference |
| RelayTables.OverlapHasColon | internal/configgen/data.go:194-223 | without a colon in a user name nothing hides it: relays on one host and port with different logins fail the build |
| RelayTables.LoginAbsent | internal/configgen/data.go:211-218 | a relay has no login exactly if user name and stored password are both empty, or the password does not decrypt; a password without a user name is a login |
| Logins.PlainIsRead | internal/configgen/postfix.go:101-107 | printed, trimmed and cut at its first colon, a login is read back exactly if its user name neither begins with a blank nor holds a colon and its password does not end with a blank |
| RelayTables.LoginsPrinted | internal/configgen/data.go:194-223 | from the printed `sasl_passwd` every relay in use reads its own user name and password, the two fields of its row, and none if it has none, exactly if every login is plain in that sense and relays Postfix cannot tell apart have one login |
| RelayTables.EncryptionPrinted | internal/configgen/postfix.go:109-115 | the printed `tls_policy` holds a relay to encryption exactly if a STARTTLS relay that Postfix cannot tell from it comes first on its spelling of the nexthop |
| RelayTables.EncryptionFitsExactly | internal/configgen/data.go:229-235 | the relays held to encryption are exactly the STARTTLS relays if and only if relays Postfix cannot tell apart have one TLS mode |
| TwoRelays.TwoReachable | internal/admin/core.go:205-275 | four admin calls lead to any two valid relays, one for all mail and one for the first domain's |
| TwoRelays.TwoCompile | internal/configgen/data.go:220-236 | that build fails exactly if both are on one nexthop with different logins, unless a colon in a user name hides the difference |
| TwoRelays.TwoMean | internal/configgen/data.go:249-265 | otherwise the domain's mail goes to the second relay, on its host and port and with its TLS flavour |
| TwoRelays.SharedNexthopLoses | internal/configgen/data.go:211-235 | two relays on one nexthop, one of them STARTTLS: the build succeeds, but the second loses the last blank of its password and has no `encrypt` entry |
| TwoRelays.ColonUserClashes | internal/configgen/data.go:194-223 | user `a` with password `b:c` and user `a:b` with password `c` on one nexthop: the build succeeds, and Postfix logs in to the second relay with the first one's user name and password |
| TwoRelays.CaseVariantsClash | internal/configgen/data.go:194-223 | two relays whose hosts differ in case only, with different logins: the build succeeds, but Postfix reads one login for both |
| SenderIdentity.RunKeepsInv | internal/db/store_mail.go:234-276 | over every run an alias is a catch-all exactly if its source starts with `@`, no mailbox address does, addresses are lower case and trimmed, and addresses and alias pairs do not repeat |
| SenderIdentity.AliasSourceOk | internal/db/store_mail.go:243-259 | the source built for an alias starts with `@` exactly for a catch-all, and a catch-all is never refused here |
| SenderIdentity.LocalPartAddress | internal/db/validate.go:74-93 | a validated local part makes a normal address that does not start with `@`, although validation trims only its own copy |
| SenderIdentity.BuildSenderLogins | internal/configgen/data.go:139-172 | the list maps each sender to its mailbox and the enabled aliases' local destinations, senders strictly increasing |
| SenderIdentity.AddGrants | internal/configgen/data.go:154-161 | the loop over aliases grants exactly the enabled ones that are no catch-all and end at an enabled mailbox |
| SenderIdentity.AllowedSenders | internal/mailapi/send.go:23-37 | the set built in the loop is the mailbox's address and the sources not starting with `@` of enabled aliases to it |
| SenderIdentity.OwnersDistinct | internal/configgen/data.go:142-172 | no owner is listed twice, whatever order the rows come in |
| SenderIdentity.AuthorizersAgree | internal/mailapi/send.go:25-53 | in every reachable database an enabled mailbox can send as `x` in webmail exactly if Postfix lists it among the owners of `x` |
| SenderIdentity.ResolveFromExactly | internal/mailapi/send.go:39-53 | the address asked for is used, trimmed and in lower case, exactly if it is the mailbox's or granted to it; the mailbox's own if none is asked for; no other ever |
| SenderIdentity.AliasSourceExactly | internal/db/store_mail.go:243-259 | a source is accepted exactly if it is a valid local part or its address in the domain, in any case and with outer blanks, and becomes that address |
| SenderIdentity.AliasCreated | internal/db/store_mail.go:234-276 | a new alias is enabled: who may send as what grows by its own source for its own destination, if it is no catch-all, and by nothing else; and exactly when one is refused |
| SenderIdentity.MailboxCreated | internal/db/store_mail.go:115-141 | a new mailbox is enabled and owns its address at once; nobody else gains or loses one, and a valid one is refused exactly if the address is taken |
| SenderIdentity.SwitchedGrants | internal/db/store_mail.go:350-354 | an alias switched off is an alias deleted; switched on, it grants its source to its destination, if it is no catch-all, and nothing else changes |
| SenderIdentity.SwitchedOwns | internal/db/store_mail.go:188-193 | a mailbox switched off is a mailbox deleted; switched on, it owns its address, and nothing else changes |
| SenderIdentity.DomainDeleted | internal/migrations/0001_schema.sql:21-52 | a domain goes with its mailboxes and its aliases and with no others |
| Names.LocalPartExactly | internal/db/validate.go:74-93 | a trimmed text is a local part exactly if it has at most 64 characters, is words of lower-case letters, digits and `+_-` between single dots, and begins and ends with a letter or digit |
| Names.DomainNameExactly | internal/db/validate.go:10-51 | a domain name is accepted exactly if it has at most 253 characters and is labels between dots, a top-level label last and the first not `mail` |
| SenderIdentity.Store.CreateAlias | internal/db/store_mail.go:234-276 | an alias is stored under its domain's source, or nothing changes |
| SenderIdentity.Store.CreateMailbox | internal/db/store_mail.go:115-141 | a mailbox is stored under a free address of its domain, or nothing changes |
| SenderIdentity.Store.UpdateAliasEnabled | internal/db/store_mail.go:350-354 | for every owner and sender, an alias switched off is an alias deleted and one switched on grants what it says |
| SenderIdentity.Store.UpdateMailbox | internal/db/store_mail.go:188-193 | for every address, a mailbox switched off is a mailbox deleted and one switched on owns its own |
| CertFiles.StepInv | internal/certs/manager.go:183-249 | the lock keeps each issuance's files, and what it knows of them, from every other thread, step by step |
| CertFiles.EveryAnswerIsOnePair | internal/certs/manager.go:130-154 | in every interleaving a handshake is answered with nothing, a complete pair of one issuance for its host, or a complete fallback pair |
| CertFiles.AnsweredExactly | internal/certs/manager.go:130-154 | in every interleaving a handshake is answered with the pair cached for its host when it began; without one, with the pair on disk if one loads throughout the handshake; and only if at some moment none loads, with the fallback there was at the start or another complete pair of the host |
| CertFiles.LoadedIsAnswered | internal/certs/manager.go:130-154 | so if a pair loads for the host when the handshake begins, the cache shows no other, and no certificate is renamed for the host before the answer, that pair is the answer |
| CertFiles.PairNeverJumps | internal/certs/manager.go:313-323 | the pair that loads for a host never changes to another without a moment at which none loads |
| CertFiles.HandshakeRuns | internal/certs/manager.go:140-149 | left alone, a handshake for a host whose pair loads gets to that pair as its answer and caches it |
| CertFiles.FallbackInstalled | internal/certs/manager.go:101-128 | installing a fallback keeps the pair on disk if it loads, makes one otherwise, and serves it |
| CertFiles.WaitingCanGo | internal/certs/manager.go:189-195 | in every interleaving an attempt waiting for its host's lock can go ahead exactly if no other is at work on the host, however earlier ones ended |
| CertFiles.IssuanceOwnsDisk | internal/certs/manager.go:189-195 | after an issuance has renamed both files its pair is the one that loads, until another issuance of that host renames a certificate |
| CertFiles.FailureKeepsPairExactly | internal/certs/manager.go:164-244 | however an attempt ends, by a refusal, a failed write, the database or a crash: before its certificate is renamed the host keeps the pair that loaded, between the renames no pair loads, after both the new one does |
| CertFiles.FailureCanRemovePair | internal/certs/manager.go:313-323 | from any state with the lock free, a renewal that fails between its renames leaves the host without a pair that loads |
| CertFiles.WorkingPairRemoved | internal/certs/manager.go:313-323 | a run in which a first issuance works and a second, failing between its renames, leaves no pair |
| CertFiles.CacheStaysTrueExactly | internal/certs/manager.go:130-154 | in every reachable state in which a pair loads for a host, the cache shows no other pair for it, in every continuation until a certificate is renamed for that host, exactly if it shows no other now and no handshake stands between reading another pair and caching it |
| CertFiles.ClearedCacheStaysTrueExactly | internal/certs/manager.go:246-249 | so the deletion at the end of an issuance makes later handshakes see the new pair exactly if no handshake is then about to cache an old one |
| CertFiles.HandshakeCanCacheOldPair | internal/certs/manager.go:141-148 | a run from the start in which a handshake reads the first pair, a renewal finishes, and the handshake caches the first pair again |
| CertFiles.Manager.WritePEMPair | internal/certs/manager.go:313-343 | the certificate is replaced before the key, and a failure leaves what was renamed |
| CertFiles.Manager.IssueNow | internal/certs/manager.go:183-249 | one at a time: success puts the new pair on disk and out of the cache, other hosts are untouched, and the cache stays true to the disk unless a cached host is half written or unmarked |
| CertFiles.Manager.GetCertificate | internal/certs/manager.go:130-154 | cached pair, else the pair on disk, else the fallback; from a cache true to the disk the answer is the pair on disk whenever one loads |
| Renewal.BackoffGrows | internal/certs/manager.go:202-205 | the backoff never shrinks with the number of failures and is constant from the sixth on |
| Renewal.RenewAfterInLife | internal/certs/manager.go:236-240 | the renewal time falls in the certificate's life exactly if thirty days are left, or doubling the life does not overflow, or the life saturates |
| Renewal.RenewAfterCanPrecedeLife | internal/certs/manager.go:236-240 | the doubling of a 146-year life overflows, and a certificate in its last days would be due before it was issued |
| Renewal.RenewedInTime | internal/certs/manager.go:236-244 | after a success the row is active and due, to the millisecond, from thirty days before expiry on, if there are thirty days; otherwise, if doubling the life does not overflow, from two thirds of the life on; other rows stay |
| Renewal.RetriedAfterBackoff | internal/certs/manager.go:197-213 | after a failure the row waits for DNS exactly if the preflight failed, else shows an error, and is due, to the millisecond, from the next backoff on; other rows stay |
| Renewal.BackoffDoubles | internal/certs/manager.go:202-205 | one hour, doubled with each failure up to the fifth, then a day |
| Renewal.DueOnRequest | internal/db/store_certs.go:93-106 | a new row is due at any time, a forced renewal is due from its instant on whatever the row said, and a restart forgets failures and the list being worked off but no row |
| Renewal.DueMeansPast | internal/db/store_certs.go:102-106 | the text comparison finds a certificate due only within a millisecond of its time, and always once it has passed |
| Renewal.FailureHoldsBackExactly | internal/certs/manager.go:164-213 | in any run with manual attempts, forced renewals, restarts, and rows deleted with their domain and created anew: after the n-th failure in a row on a host the loop's next attempt waits the n-th backoff, less a millisecond, in every continuation in which nobody else tries or forces the host or deletes its row, exactly if the host is not in the list the loop is working off |
| Renewal.OwnFailureHoldsBack | internal/certs/manager.go:166-177 | so a failure of the loop's own attempt always does |
| Renewal.GapAtLeastBackoff | internal/certs/manager.go:164-213 | in any run, when the loop comes to a host whose row was last touched by the n-th failure in a row, it has waited the n-th backoff, less a millisecond, unless somebody has tried the host since the loop's scan |
| Renewal.LoopCanRetryAtOnce | internal/admin/handlers_ops.go:329-333 | a manual attempt that fails while the host is in the loop's list is followed by another in the same instant |
| Renewal.RecreatedIsRetriedAtOnce | internal/migrations/0001_schema.sql:82-97 | after a failure a row deleted with its domain and created anew is tried in the same instant, with the failure still counted |
| Renewal.BackoffNeverShrinks | internal/certs/manager.go:197-207 | in any run a failure sets the wait by the length of its streak, not below the wait before; a success starts over |
| Renewal.Manager.Fail | internal/certs/manager.go:197-213 | the doubling and the cap give 1, 2, 4, 8, 16 and then 24 hours from the attempt |
| Renewal.Manager.IssueNow | internal/certs/manager.go:183-249 | the row and the failure count after an attempt, for each outcome |
| Renewal.Manager.RenewDue | internal/certs/manager.go:166-177 | a tick tries every certificate due at its start once and touches no other |
| ConfigApply.Generator.RenderAll | internal/configgen/apply.go:85-139 | a rendering has every file of every service, or there is none |
| ConfigApply.Generator.WriteAll | internal/configgen/apply.go:44-52 | the files before the first failed write are new and the others untouched, in any order |
| ConfigApply.Generator.Reload | internal/configgen/apply.go:55-67 | each target whose reload works has loaded its files on disk, one failure does not stop the others |
| ConfigApply.Generator.Apply | internal/configgen/apply.go:35-80 | a failed build or rendering changes no file and reloads nothing, a failed write reloads nothing, and the call reports success exactly if all of it worked |
| ConfigApply.RendersExactly | internal/configgen/data.go:281-294 | a state renders exactly if it can be read, has a hostname, a default transport and no address without `@`, and every template goes through |
| ConfigApply.ReloadedExactly | internal/configgen/apply.go:55-67 | Postfix and Dovecot load the new files exactly if all were written, reloading is on and their own reload works, OpenDKIM if besides DKIM is on; else a service keeps what it had |
| ConfigApply.SucceedsExactly | internal/configgen/apply.go:35-80 | a call reports success exactly if its state renders, every write works, and no service that is to be reloaded fails to |
| ConfigApply.SuccessIsComplete | internal/configgen/apply.go:35-80 | a call that reports success leaves the complete files of one state, and every service it reloads on them |
| ConfigApply.LoadedIsWhole | internal/configgen/apply.go:16-80 | over any calls failing anywhere, each service has loaded what it had at first or one complete rendering of one database state: that of the last call that wrote everything and reloaded it |
| ConfigApply.FilesAreWhole | internal/configgen/apply.go:148-175 | each file on disk is always a whole version, that of the last call whose writes reached it |
| RateLimiter.Limiter.Allow | internal/security/ratelimit.go:31-58 | one call on the shared map answers and leaves the buckets as the specification, eviction included |
| RateLimiter.Limiter.Sweep | internal/security/ratelimit.go:38-44 | deleting while ranging removes exactly the buckets idle for more than ten minutes |
| RateLimiter.EvictionInvisible | internal/security/ratelimit.go:31-58 | if ten minutes refill a bucket, no run of calls on any keys can tell the limiter from one that never evicts |
| RateLimiter.LoginLimiterRefills | internal/api/app.go:198 | the login limiter meets that condition |
| RateLimiter.TokensBounded | internal/security/ratelimit.go:46-57 | in every run every bucket stays between zero and the burst |
| RateLimiter.KeysIndependent | internal/security/ratelimit.go:31-58 | a key is answered as if no other key were ever used |
| RateLimiter.WindowBound | internal/security/ratelimit.go:31-58 | between any two instants of any run a key gets at most the burst through, plus the rate for each second |
| RateLimiter.RefusedExactly | internal/security/ratelimit.go:31-58 | in any run a call is refused exactly if from some instant on it would take the key over the burst and the rate for each second since |
| RateLimiter.FiveTries | internal/api/app.go:198 | the first five tries of a key to log in pass, at whatever times and whatever other keys do |
| RateLimiter.CrowdedIsSwept | internal/security/ratelimit.go:36-44 | a new key that finds more than 10000 buckets drops exactly those idle for more than ten minutes |
| Mailbox.RunInv | internal/imapclient/mock.go:53-87 | in every run that does not exhaust the counter, however long, `order` lists each folder once, messages know their folder, and UIDs are unique over all folders and at most `nextUID` |
| Mailbox.UidsIncreaseExactly | internal/imapclient/mock.go:74-87 | every UID handed out is larger than any before, exactly while the 32-bit counter has not wrapped (section 2.3.1.1 of RFC 3501) |
| Mailbox.UidsWrap | internal/imapclient/mock.go:81 | the delivery after the largest UID gets UID 0 |
| Mailbox.MoveConserves | internal/imapclient/mock.go:214-233 | a move turns one message into itself with a new UID and folder and changes nothing else, also within one folder; it fails exactly if the message or the destination is missing |
| Mailbox.RunConserves | internal/mailapi/mailapi.go:354-371 | over any run of API calls the contents are those at the start and those that arrived, less those deleted in a folder of the Trash role |
| Mailbox.LocatedExactly | internal/imapclient/mock.go:61-72 | a message is found exactly if one in the folder has the UID, and then the first such |
| Mailbox.AppendedLast | internal/imapclient/mock.go:74-89 | a message that arrives is the last of its folder, and every other stays where it was |
| Mailbox.MovedLast | internal/imapclient/mock.go:214-233 | a message that moves becomes the last of the other folder under a new UID, and the others keep their order, also within one folder |
| Mailbox.MarkedExactly | internal/imapclient/mock.go:246-255 | marking sets the flag asked for on the message found and changes no other message |
| Mailbox.DiscardedExactly | internal/mailapi/mailapi.go:354-371 | the API's delete destroys in the folders named Trash and Deleted Messages, and elsewhere moves to Trash |
| Mailbox.DescribedExactly | internal/imapclient/mock.go:104-120 | a folder below 2^32 messages is listed with all of them, and as unseen those without the flag |
| Mailbox.Mock.FindLocked | internal/imapclient/mock.go:61-72 | the search finds the first message with the UID in the folder, if any |
| Mailbox.Mock.Add | internal/imapclient/mock.go:74-89 | a missing folder is created last in the order; the message goes in under the next UID |
| Mailbox.Mock.MoveMessage | internal/imapclient/mock.go:214-233 | removing and appending in place equals the specified move |
| Mailbox.Mock.Delete | internal/imapclient/mock.go:235-244 | exactly the found message goes |
| Mailbox.Mock.MarkSeen | internal/imapclient/mock.go:246-255 | only the flag of the found message changes |
| Mailbox.Mock.DeleteOrTrash | internal/mailapi/mailapi.go:354-371 | the API's delete destroys in a Trash-role folder and otherwise moves to Trash |
| Mailbox.Mock.ListFolders | internal/imapclient/mock.go:104-120 | folders in order, each with its total and its unseen messages |
| Mailbox.Mock.constructor | internal/imapclient/seed.go:10-19 | a new mailbox has the named folders in that order, with their roles and no message |
| Paging.PageOf | internal/imapclient/mock.go:155-183 | a page is a slice of the stable newest-first sort, with the cursor of the next page exactly if messages remain |
| Paging.PagesShowAll | internal/imapclient/mock.go:155-183 | following the cursors shows every message once, newest first, equal dates in the order added, for every limit |
| Paging.PageIsFull | internal/imapclient/mock.go:155-183 | a page holds as many messages as asked for, one to a hundred, else fifty, or those that are left; it has a next cursor exactly if more are left, and says how many there are in all |
| Paging.List | internal/imapclient/dovecot.go:98-146 | the page for a cursor in 32-bit and 64-bit arithmetic, newest first |
| Paging.WindowsTileExactly | internal/imapclient/dovecot.go:98-146 | following the cursors ends and covers `total` down to 1 without gap or overlap, no window over the limit, exactly if the total rounded up to whole pages is below 2^32 |
| Paging.LargestFolderDoesNotTile | internal/imapclient/dovecot.go:142-144 | with 2^32 - 1 messages and pages of fifty they do not |
| Paging.SmallFoldersTile | internal/imapclient/dovecot.go:98-146 | so it does for every limit on every folder of up to 2^32 - 100 messages |
| Paging.WindowIsFull | internal/imapclient/dovecot.go:98-146 | the window at an offset inside the folder ends there and holds the same number; beyond the folder there is none |
| Adapters.TilesShowAll | internal/imapclient/dovecot.go:138-141 | windows that tile show the folder backwards, each message once |
| Adapters.AdaptersAgree | internal/imapclient/mock.go:155-183 | on a folder whose dates increase both adapters show the same messages in the same order, whatever their limits |
| Adapters.OrdersAgreeExactly | internal/imapclient/mock.go:166-168 | on distinct messages the two orders are the same exactly if the dates increase |
| MessageIds.Base64RoundTrip | internal/mailapi/mailapi.go:165-173 | decoding undoes encoding for every byte string (section 5 of RFC 4648, no padding) |
| MessageIds.SymbolsAre | internal/mailapi/mailapi.go:165-173 | the alphabet is the URL-safe one: letters, digits, minus and underline, each at its own value |
| MessageIds.DecodesExactly | internal/mailapi/mailapi.go:165-183 | a text decodes exactly if it is made of symbols of the alphabet and line breaks, and does not end with a single symbol of a group |
| MessageIds.MessageIDRoundTrip | internal/mailapi/mailapi.go:165-183 | decoding a message id gives folder and UID back exactly if the folder has no byte 0x1f |
| MessageIds.AttachmentIDRoundTrip | internal/mailapi/mailapi.go:185-205 | the same for attachment ids and any 64-bit index |
| MessageIds.IdsAreDisjoint | internal/mailapi/mailapi.go:169-205 | no text decodes both as a message id and as an attachment id |
| MessageIds.AttachmentIDIsNoMessageID | internal/mailapi/mailapi.go:185-188 | no attachment id decodes as a message id |
| MessageIds.MessageIDAsAttachmentID | internal/mailapi/mailapi.go:190-205 | a message id decodes as an attachment id exactly if its folder is itself a folder, one 0x1f and a number |
| TimeFormat.FormatTimeOrder | internal/db/db.go:108-115 | stored times compare as text exactly as their instants do in milliseconds, for the years 0 to 9999 |
| TimeFormat.ParseFormatTime | internal/db/db.go:117-133 | a stored time reads back truncated to milliseconds |
| TimeFormat.TextShape | internal/db/db.go:108-115 | the text has the 24 characters of the layout, each field zero-padded in its place |
| Sessions.PrunedIsExpired | internal/db/store.go:125-145 | what a prune deletes, lookup rejects then and at every later time |
| Sessions.ExpiredIsPruned | internal/db/store.go:125-145 | the two tests of expiry differ exactly within the millisecond of the expiry |
| Sessions.PrunedExactly | internal/db/store.go:141-145 | a prune leaves exactly the rows whose millisecond of expiry is not past, as they were |
| Sessions.PruneInvisible | internal/db/store.go:79-145 | in any run, leaving out every prune changes no answer |
| Sessions.FoundUntilExpiry | internal/db/store.go:79-145 | in any run with prunes and lookups of both types in between, a session not deleted is found, with its user, by lookups of its type up to the millisecond of its creation plus its time to live, and never after |
| Sessions.DeletedIsGone | internal/db/store.go:132-139 | a deleted session is never found again |
| Sessions.SessionStore.CreateSession | internal/db/store.go:81-96 | a session is stored under its token with its expiry as text |
| Sessions.SessionStore.LookupSession | internal/db/store.go:107-130 | only an unexpired session of the wanted type is found, and an expired one is deleted |
| Sessions.SessionStore.PruneSessions | internal/db/store.go:141-145 | exactly the rows whose text expiry is before the clock's text go |
| Vault.RunInv | internal/auth/session.go:61-101 | in every interleaving a vault entry, or one about to be written, belongs to a mailbox session whose row came first |
| Vault.OnlyDeadEntriesDropped | internal/auth/session.go:183-206 | in every interleaving an entry vanishes only when its own session logs out or when its row is gone, for good |
| Vault.SweepLeavesLive | internal/auth/session.go:183-206 | whatever runs beside it, a sweep leaves exactly the entries whose mailbox rows its query saw, with their passwords |
| Vault.LiveReadsLastStored | internal/auth/session.go:117-130 | in every interleaving a session whose row exists reads exactly the credentials last stored for it, by login or password change, unless its logout has dropped them |
| Vault.CallStores | internal/auth/session.go:61-130 | in every interleaving a login with a password, and a password change, have stored that password for their session when they are done |
| Vault.LogoutEnds | internal/auth/session.go:89-101 | in every interleaving a session has no row once its logout is done |
| Vault.GoneForGood | internal/auth/session.go:61-73 | a session whose row is gone never has one again |
| Vault.SessionManager.Login | internal/auth/session.go:61-78 | the row first, then the vault entry if there is a password |
| Vault.SessionManager.Retain | internal/auth/session.go:201-205 | deleting while ranging leaves exactly the live entries |
| Vault.SessionManager.Sweep | internal/auth/session.go:183-206 | alone, a sweep prunes the table and then leaves live mailbox sessions only |
| Reply.ServerRecipients | internal/mailapi/send.go:270-293 | the server's loops compute the direct recipients and the declared copies |
| Reply.ClientRecipients | web/src/apps/mail/Compose.tsx:305-323 | the web client's loops compute the same addresses |
| Reply.CopiedExactly | internal/mailapi/send.go:278-293 | an address is copied exactly if it is among To and Cc, not empty, and neither the user's nor a direct recipient's, regardless of case; none twice |
| Reply.CopiedInOrder | internal/mailapi/send.go:285-293 | first occurrences are copied, in the order they stand |
| StableSort.SortStable | internal/configgen/postfix.go:41 | `sort.SliceStable` keeps the order of equals, the guarantee that lookups and pages rest on |
| Text.AtoiFormatInt | internal/imapclient/dovecot.go:98-103 | printing and parsing a 64-bit number gives it back |

## Left out

- Template-rendered files (`main.cf`, `master.cf`, Dovecot and OpenDKIM configuration) are an opaque function of the data; the `mail_hostname` of a domain is not modelled.
- The textual round trip of `virtual_aliases` and `sender_logins`: nothing keeps blanks out of alias keys, so sender identity is stated on the data. Continuation lines of texthash files do not occur in the printed maps covered.
- CertFiles.EveryAnswerIsOnePair: a server name is a key of the file tree; names with path separators, and `EnsureFallback` in steps smaller than one, are not modelled.
- ConfigApply.LoadedIsWhole: calls do not overlap; the code has no lock against that. A service restarted by hand after a failed write would read files of two calls.
- Dovecot's side of `Move`, `Delete`, `SetSeen` and `Search`, and its flag and role mapping: single IMAP commands and branches with no state of their own.
- The migration runner: the schema is taken as the first migration leaves it.
- TimeFormat.ParseFormatTime: covers the canonical layout only; the fallback layouts accept texts the program never writes.
- Message contents are one string and headers are whole messages: parsing and MIME are foreign libraries. Aliasing of message pointers is not modelled, since each message is in one folder slice and reads return copies.
- Passwords, two-factor, passkeys, ACME, DNS, HTTP handlers, cookies, the React interface, backups, updates and installers: foreign libraries, I/O or presentation.
