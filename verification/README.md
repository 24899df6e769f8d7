# Verified model of the cPanel migration tool's editing cores

The tool moves a hosting account between cPanel servers. This project models the parts of it that edit
something a human may also be editing - configuration files, DNS zones, email settings - together with the
planners and verifiers that decide what to edit, and proves what they promise.

- **Configuration files.** `DotEnvScanner` and `DotEnvRewrite` are the `.env` tokenizer, its decoder and the
  in-place editor, and `DotEnvGrammar` the shape of the lines it reads; `PhpArrays` is the string-aware PHP array
  walk that bounds an edit, and `PhpPattern` the shape of what it walks over.
- **DNS.** `DnsNames`, `DnsText` (TXT segments, address substitution) and `DnsZone` (a zone as lines with
  indexes and a serial) carry `DnsPlan` (the planner), `DnsPrecondition` and `DnsApply` (the guarded write),
  `DnsRollback`, and `DnsVerify`. `DnsRestore` proves restoration by rollback; `DnsConverge` follows a built
  plan through apply, verify and rollback.
- **Email.** `EmailValues` and `EmailState` (the account and the server's calls) carry `EmailPlan`,
  `EmailApply` (guard and write loop), `EmailVerify` and `EmailRollback`. `EmailSafety` proves what no run
  overwrites, in every interleaving with edits by people; `EmailRestore` proves restoration; `EmailReady`
  follows a built plan through plan, apply, verify and rollback; `EmailDelivery` proves what a plan holds of the
  source and that a run brings it to the destination.
- **Codecs and comparison.** `WireCodecs` (UAPI arguments, quoted and hex names), `DeepVerify` (row-count
  correlation), `DeepGrammar` (the lines it reads) and `InventoryDiff` (the keyed and cron comparisons).
- `Text` and `Sorting` hold what the others share.

Code that loops over mutable state is modelled by methods with loops, classes (`Zone`, `Destination`) where a
server's state changes; each is proved equal to a specification function or relation, and the theorems are
lemmas about those. A Go string is a byte string here: one `char` per byte.

Every decision, status and verdict - of planner, guard, write loop, rollback and verifier - is stated as an
if-and-only-if over what the two sides hold, what was sent and what was observed, in terms of its own and not of
the function that computes it (`SkipsExactly`, `GuardMeans`, `TurnStatusMeans`, `StatusMeans`, `UndoStatusMeans`,
`VerdictMeans`, the `OpMeans` lemmas of `EmailDelivery`).

Where a promise does not hold of the code, a lemma gives the input or the family that breaks it, and beside it
stands the condition under which it holds: a quote after a carriage return in a `.env` value; a PHP array body
in which the two bracket families interleave; the bare zone name; an add without records reported applied; a
replace that keeps an old value, reported failed; one of an unchanged rrset with a relative host, refused as
drifted; one that only removes values, skipped as already present and pending for ever; a PHP key between
unequal quotes; a forwarder pair listed twice; a forwarder that a person adds between guard and write, taken for
the tool's own; a routing mode set to nothing, whose rollback overwrites whatever is there
(email_apply_cmd.go:1172, and :1087 for default addresses, where no built plan gets to it); a hand-edited email
op whose key and address differ; two hex labels of one table; fields that only the destination's item has.

Check the project with `dafny verify dfyconfig.toml`.

## Model

| member | source | states |
|---|---|---|
| `DotEnvScanner.DotEnvScan` | internal/dbmig/cmsconfig.go:491-590 | the index loop returns, for every text, the assignments with their value spans and the malformed verdict of the recursive scan the lemmas are about |
| `DotEnvScanner.LocateAssignment` | internal/dbmig/cmsconfig.go:491-590 | one turn of that loop: the line at the index is a comment or other text, an assignment with its span, or a quote that is never closed |
| `DotEnvScanner.QuoteLoop` | internal/dbmig/cmsconfig.go:491-590 | the inner loop finds the closing quote of a value, honouring escapes in double quotes and line ends in single ones, or finds that there is none |
| `DotEnvScanner.DotEnvUnquoteDouble` | internal/dbmig/cmsconfig.go:622-636 | the decoder's loop computes the text up to the first quote it does not take for escaped |
| `DotEnvScanner.DotEnvValue` | internal/dbmig/cmsconfig.go:453-468 | the decoded value of the last assignment of the key; empty for an absent key or a malformed file |
| `DotEnvScanner.LastOf` | internal/dbmig/cmsconfig.go:453-468 | last assignment wins: the index found carries the key and no later assignment does |
| `DotEnvScanner.UnquotedValue` | internal/dbmig/cmsconfig.go:453-617 | the value of a key whose last raw value does not start with a quote is a prefix of that raw value, holds no blank, tab or number sign, and is all of it or is followed by one of the three |
| `DotEnvScanner.SingleQuotedValue` | internal/dbmig/cmsconfig.go:453-617 | between single quotes it is the text up to the next single quote, or to the end of the line |
| `DotEnvScanner.DoubleQuotedValue` | internal/dbmig/cmsconfig.go:453-636 | between double quotes it is what the parts of the text mean: plain bytes, backslash pairs and the escapes, up to the first quote outside them |
| `DotEnvScanner.PartsDecode` | internal/dbmig/cmsconfig.go:622-636 | any text made of such parts decodes to their meaning |
| `DotEnvScanner.PartsExist` | internal/dbmig/cmsconfig.go:622-636 | every text is made of such parts |
| `DotEnvScanner.AbsentValue` | internal/dbmig/cmsconfig.go:453-468 | a key that no line binds, and every key of a malformed text, reads as empty |
| `DotEnvScanner.DecoderReadsToStop` | internal/dbmig/cmsconfig.go:622-636 | nothing after the quote the decoder stops at can change what it reads |
| `DotEnvScanner.DecoderStopsWhereScannerCloses` | internal/dbmig/cmsconfig.go:491-636 | although their escape rules differ, the decoder stops at exactly the double quote the scanner closed the value on |
| `DotEnvScanner.SingleQuoteEnd` | internal/dbmig/cmsconfig.go:491-617 | the same for single quotes, which also never reach over a line end |
| `DotEnvScanner.QuotedValue` | internal/dbmig/cmsconfig.go:491-617 | a value whose first byte after the blanks is a quote is decoded to exactly the quote it was closed on |
| `DotEnvScanner.ScannerAndDecoderAgree` | internal/dbmig/cmsconfig.go:491-636 | so it is for every assignment of every scan that is scanned as quoted; and an assignment is decoded to a quote that is its last byte if and only if the scanner, reading its raw value from the first byte, would close it at the last |
| `DotEnvScanner.CarriageReturnHidesAQuote` | internal/dbmig/cmsconfig.go:491-617 | the input that shows why "scanned as quoted" is needed: after a carriage return the scanner sees no quote, the decoder does |
| `DotEnvGrammar.ShapeIsRead` | internal/dbmig/cmsconfig.go:491-590 | every line of the shape blanks, export, key, blanks, equals sign is read as that assignment, its value from there to where the value ends |
| `DotEnvGrammar.ReadHasShape` | internal/dbmig/cmsconfig.go:491-590 | no other line is: whatever is read as an assignment or found malformed has that shape |
| `DotEnvGrammar.ClassesAre` | internal/dbmig/cmsconfig.go:491-590 | which bytes are blanks, key characters and line contents, by code |
| `DotEnvGrammar.QuotedValueEnds` | internal/dbmig/cmsconfig.go:540-580 | a quoted value ends at an index if and only if its quote stands just before it and the text between holds no such quote outside an escape, nor a line end in single quotes |
| `DotEnvGrammar.UnquotedValueEnds` | internal/dbmig/cmsconfig.go:540-590 | any other value ends exactly at the end of its line |
| `DotEnvGrammar.NextLineIs` | internal/dbmig/cmsconfig.go:491-590 | the next line starts just past the first line end, or where the text ends |
| `DotEnvGrammar.OtherLineEnds` | internal/dbmig/cmsconfig.go:491-590 | a line that is no assignment is skipped whole |
| `DotEnvGrammar.LinesThenText` | internal/dbmig/cmsconfig.go:491-590 | where whole lines are followed by more text, the assignments of both are read, those of the second moved by the length of the first |
| `DotEnvRewrite.SpansOrdered` | internal/dbmig/cmsconfig.go:491-590 | value spans are ordered and disjoint, and every key token lies after a line end that follows the previous value: no key is found inside a value |
| `DotEnvRewrite.KeyToken` | internal/dbmig/cmsconfig.go:491-590 | every reported assignment has its key and equals sign in the text just before its value span |
| `DotEnvRewrite.LineAgree` | internal/dbmig/cmsconfig.go:491-590 | prefix determinism: a line that ends within a common prefix of two texts is read the same in both |
| `DotEnvRewrite.LineShift` | internal/dbmig/cmsconfig.go:491-590 | a line read from equal suffixes of two texts gives the same assignment, moved |
| `DotEnvRewrite.ScanShift` | internal/dbmig/cmsconfig.go:491-590 | two texts with equal suffixes bind the same keys to the same raw values from there on |
| `DotEnvRewrite.LiteralCloses` | internal/dbmig/cmsrewrite.go:265-273 | the literal written for a value is closed by the scanner at its end, or at its first single quote, and decodes to the value up to there |
| `DotEnvRewrite.EditScan` | internal/dbmig/cmsrewrite.go:238-254 | replacing one value span by a literal that closes changes that binding and no other, whatever text surrounds it |
| `DotEnvRewrite.EditMalformed` | internal/dbmig/cmsrewrite.go:238-254 | replacing it by a literal that never closes makes the whole file malformed |
| `DotEnvRewrite.SetDotEnv` | internal/dbmig/cmsrewrite.go:238-254 | the method edits the text as the specification of the set says |
| `DotEnvRewrite.SetBindings` | internal/dbmig/cmsrewrite.go:238-273 | after setting a value without a line break, its key reads as the written literal decodes, and every other key keeps its value |
| `DotEnvRewrite.SetThenValue` | internal/dbmig/cmsrewrite.go:238-273 | the value set is read back if and only if it has no single quote and no line break, or has a single quote but none of dollar, backslash, double quote, CR and LF; for every value but those with a single quote before their first line break |
| `DotEnvRewrite.SetMultiline` | internal/dbmig/cmsrewrite.go:238-273 | a value with a line break before any single quote makes the key read as absent |
| `DotEnvRewrite.SetOutsideSpan` | internal/dbmig/cmsrewrite.go:238-254 | all bytes before and after the bound value's span are unchanged |
| `DotEnvRewrite.RewriteDotEnv` | internal/dbmig/cmsrewrite.go:218-230 | the three edits in order, an empty credential leaving its key alone |
| `DotEnvRewrite.RewriteThenParse` | internal/dbmig/cmsrewrite.go:218-230 | after a rewrite each given credential reads back if and only if it is representable, those not given and the host are as they were |
| `PhpArrays.SkipPHPStringLiteral` | internal/dbmig/cmsconfig.go:299-310 | the loop returns the index of the closing quote of a string literal, over escapes |
| `PhpArrays.MatchingArrayClose` | internal/dbmig/cmsconfig.go:276-292 | the loop returns the closer the recursive search finds, or -1 |
| `PhpArrays.CloserBalances` | internal/dbmig/cmsconfig.go:276-292 | an index is that closer if and only if it is a closer outside every string literal that brings the bracket depth to zero for the first time |
| `PhpArrays.ReplacingKeepsCloser` | internal/dbmig/cmsrewrite.go:149-166 | replacing the body of a string literal by another escaped body moves the closer of every block around it by exactly the difference in length, and no other closer |
| `PhpArrays.ChildArrayKeyOpen` | internal/dbmig/cmsconfig.go:243-264 | the loop returns the body of the first child array under a key, as the recursive search finds it |
| `PhpArrays.ChildFromFinds` | internal/dbmig/cmsconfig.go:243-264 | that child is introduced by a string literal at bracket depth zero outside every other literal; when none is found, no such place introduces the key |
| `PhpArrays.ArrayBlockBounds` | internal/dbmig/cmsconfig.go:200-232 | the walk down the keys returns the innermost body, and fails exactly when some key or closer is missing |
| `PhpPattern.MatchIsRead` | internal/dbmig/cmsconfig.go:234-264 | the anchored match accepts every text of the shape quote, key, quote, arrow, array keyword or bracket, with the white space allowed between |
| `PhpPattern.ReadIsMatch` | internal/dbmig/cmsconfig.go:234-264 | it accepts nothing else |
| `PhpPattern.SpacesAre` | internal/dbmig/cmsconfig.go:234-264 | the white space of the pattern, by code |
| `PhpPattern.LeftmostMatch` | internal/dbmig/cmsconfig.go:200-232 | what the search finds is the leftmost match |
| `PhpPattern.NoMatch` | internal/dbmig/cmsconfig.go:200-232 | it finds none if and only if there is none |
| `PhpPattern.LiteralEndIs` | internal/dbmig/cmsconfig.go:299-310 | a literal ends at the first byte that is its quote and not hidden by a backslash |
| `PhpPattern.LiteralEndHides` | internal/dbmig/cmsconfig.go:299-310 | whatever is returned is such a byte, or the last one of a text in which the literal is never closed |
| `PhpPattern.WalkSteps` | internal/dbmig/cmsconfig.go:200-292 | a walk takes the leftmost match of its first key, in each body the first child under the next key outside literals, and each body up to the closer that balances its opener |
| `PhpPattern.StepsAreWalked` | internal/dbmig/cmsconfig.go:200-292 | spans taken so are those the walk returns |
| `PhpArrays.LeftmostKeyOpen` | internal/dbmig/cmsconfig.go:200-232 | the outermost key is the leftmost match in the text |
| `PhpArrays.ChildAtBoundary` | internal/dbmig/cmsconfig.go:200-264 | under a key whose matches are whole string literals, a child opens at a token boundary of its parent's body, not inside a string literal of it |
| `PhpArrays.PlainKeysAreWhole` | internal/dbmig/cmsconfig.go:243-264 | a key without quotes and backslashes has whole literals for matches wherever the two quotes around it are equal |
| `PhpArrays.ChildNests` | internal/dbmig/cmsconfig.go:200-292 | where both bracket families nest in a body outside string literals, a child of either family is closed, strictly inside that body, and its own body nests too |
| `PhpArrays.WalkNests` | internal/dbmig/cmsconfig.go:200-292 | every span of a walk ends at the closer of its own opener; if the outermost one is well nested, every span lies strictly inside every ancestor span |
| `PhpArrays.NestedWhenClosedInside` | internal/dbmig/cmsconfig.go:200-292 | for every text: the spans of a walk nest if and only if each one's closer is already found in the text before its parent's end |
| `PhpArrays.MixedFamiliesNeedNotNest` | internal/dbmig/cmsconfig.go:200-292 | with mixed bracket families it need not be: a concrete text whose inner span ends after the outer one |
| `PhpArrays.EditKeepsWalk` | internal/dbmig/cmsrewrite.go:149-166 | editing an escaped literal that is a token of every body of the walk leaves every span where it was, its end moved by the difference in length, for keys without opening brackets |
| `PhpArrays.WalkReaches` | internal/dbmig/cmsconfig.go:200-264 | a token of the innermost body is one of every body, where the keys below the outermost are whole literals |
| `PhpArrays.SkewedEditMovesTheOuterEnd` | internal/dbmig/cmsconfig.go:243-264 | the input that shows why: under a key between unequal quotes an edit of a literal of the inner array closes the outer one early |
| `DnsNames.LiveNameIsCanonical` | cmd/cpanel-self-migration/dns_apply_cmd.go:479-488 | the absolute form of a live name is lower-case, ends in a dot and is left alone when taken again |
| `DnsNames.RelativeRoundTrip` | cmd/cpanel-self-migration/dns_apply_cmd.go:141-152 | a canonical name written in mass_edit_zone form reads back as itself if and only if its owner part is neither empty nor "@" and does not end in a dot |
| `DnsNames.PlanNameIsCanonical` | internal/accountinventory/dnsplan.go:115-134 | the planner's canonical form is absolute, lower-case and idempotent |
| `DnsNames.PlanNameIsLiveName` | internal/accountinventory/dnsplan.go:115-134 | planner and writer agree on a name if and only if no white space surrounds it and it is not the bare zone name |
| `DnsNames.BareZoneName` | cmd/cpanel-self-migration/dns_apply_cmd.go:479-488 | on the bare zone name they differ |
| `DnsNames.ParseItoa` | internal/cpanel/dns_zones.go:151-160 | a printed priority is parsed back as the same number |
| `DnsText.SplitTXTSegments` | internal/accountinventory/dnsplan.go:162-179 | the nested loops return the segments of the recursive definition |
| `DnsText.SegmentsRejoin` | internal/accountinventory/dnsplan.go:162-179 | the segments concatenate to the input and hold at most 255 bytes each (section 3.3 of RFC 1035) |
| `DnsText.SegmentsOfValidText` | internal/accountinventory/dnsplan.go:162-179 | for valid UTF-8 (section 3 of RFC 3629) every segment is valid UTF-8 and every one but the last has at least 252 bytes |
| `DnsText.SubstituteOnce` | internal/accountinventory/dnsplan.go:517-536 | the single pass returns the substitution defined recursively; it terminates when no mapped address is empty |
| `DnsText.SubstitutionIsSimultaneous` | internal/accountinventory/dnsplan.go:495-536 | the result is the image of the one reading of the text as leftmost, longest matches: output is never scanned again, so a swap map exchanges the addresses |
| `DnsText.ReadingExists` | internal/accountinventory/dnsplan.go:495-536 | every text has such a reading when no address is empty |
| `DnsText.ReadingIsUnique` | internal/accountinventory/dnsplan.go:495-536 | and no text has two |
| `DnsText.SubstitutionIdentity` | internal/accountinventory/dnsplan.go:495-536 | an identity map, or a text that holds no mapped address, is left as it is |
| `DnsZone.Zone.MassEditZoneBatch` | internal/cpanel/dns_apply.go:131-158 | an edit under the current serial removes the listed lines, appends the added ones and changes the serial; under any other it is refused and changes nothing |
| `DnsZone.FetchFrom` | internal/cpanel/dns_zones.go:61-138 | a fetch reports exactly the record lines, each with its own index, in order |
| `DnsZone.WithoutIsKeep` | internal/cpanel/dns_apply.go:131-158 | removing exactly the lines of some rrsets keeps the others in order |
| `DnsPrecondition.DnsReplacePrecondition` | cmd/cpanel-self-migration/dns_apply_cmd.go:550-614 | the method decides as the specification of the guard: missing, count drift, already present, value drift, or the lines to remove |
| `DnsPrecondition.PreconditionMeans` | cmd/cpanel-self-migration/dns_apply_cmd.go:550-614 | each outcome of the guard as an if-and-only-if over the live rrset: missing, no plan-time values, another count, already present, or compared value by value |
| `DnsPrecondition.AssignLines` | cmd/cpanel-self-migration/dns_apply_cmd.go:592-613 | the nested loops over values and unused lines compute the greedy assignment |
| `DnsPrecondition.MatchesByForm` | cmd/cpanel-self-migration/dns_apply_cmd.go:510-543 | a planned record, or a plan-time value, matches a live record if and only if their normalised forms are equal |
| `DnsPrecondition.AssignedByForms` | cmd/cpanel-self-migration/dns_apply_cmd.go:592-613 | the greedy assignment succeeds if and only if the values' forms are among those of the free lines as multisets, and its lines are distinct |
| `DnsPrecondition.ProceedTakesTheWholeSet` | cmd/cpanel-self-migration/dns_apply_cmd.go:550-614 | when a replace may proceed, its lines are pairwise distinct and are exactly the lines of the live rrset |
| `DnsPrecondition.RefusesOnlyOnDrift` | cmd/cpanel-self-migration/dns_apply_cmd.go:550-614 | past the count and already-present checks it refuses if and only if live and plan-time values differ as multisets of normalised forms |
| `DnsPrecondition.AlreadyPresentIsContainment` | cmd/cpanel-self-migration/dns_apply_cmd.go:579-589 | already_present says that every desired record is live and the count is the plan-time one, and no more than that |
| `DnsPrecondition.ProceedIsWritable` | cmd/cpanel-self-migration/dns_apply_cmd.go:550-641 | a replace that proceeds has records to write and live records of a type the tool writes |
| `DnsPrecondition.DnsAllPresent` | cmd/cpanel-self-migration/dns_apply_cmd.go:466-506 | the loop decides whether every planned record is live |
| `DnsApply.ApplyZone` | cmd/cpanel-self-migration/dns_apply_cmd.go:304-459 | the zone loop leaves the server's lines as one batch edit or as they were, and reports for every op exactly the specified status, for every serial, write failure and failed re-fetch |
| `DnsApply.Resolve` | cmd/cpanel-self-migration/dns_apply_cmd.go:345-405 | the second pass computes the batch's removals and additions in plan order and the final status of every op it does not write |
| `DnsApply.DnsOldValuesStillPresent` | cmd/cpanel-self-migration/dns_apply_cmd.go:646-662 | the nested loops decide whether a plan-time value is still live |
| `DnsApply.AppliedIsObserved` | cmd/cpanel-self-migration/dns_apply_cmd.go:304-459 | applied is reported if and only if the op was decided to be written, the batch sent, accepted and re-fetched, all its records seen and, for a replace, none of its plan-time values; no placeholder survives |
| `DnsApply.StatusMeans` | cmd/cpanel-self-migration/dns_apply_cmd.go:304-459 | every status of an op as an if-and-only-if: manual, skipped, refused by the guard or by a stale serial, applied where the re-fetch shows every record written and, of a replace, no value that was to go, failed otherwise |
| `DnsApply.RecordlessAddIsReportedApplied` | cmd/cpanel-self-migration/dns_apply_cmd.go:304-459 | an add without records, marked failed while the batch is built, is reported applied exactly when another op has something to add and that write is accepted and re-fetched |
| `DnsRollback.RollbackZone` | cmd/cpanel-self-migration/dns_apply_cmd.go:871-1015 | the rollback loop edits the zone by one batch or not at all and reports exactly the specified statuses |
| `DnsRollback.FindLine` | cmd/cpanel-self-migration/dns_apply_cmd.go:1069-1083 | the line found carries a record that matches the planned one; none is found only if none matches |
| `DnsRollback.FindsTheFirst` | cmd/cpanel-self-migration/dns_apply_cmd.go:1069-1083 | it is the first such line of the listing |
| `DnsRollback.FoundLinesMean` | cmd/cpanel-self-migration/dns_apply_cmd.go:914-930 | the lines of an op are exactly those its records are found on; there are none if and only if no record of it is live |
| `DnsRollback.UndoStatusMeans` | cmd/cpanel-self-migration/dns_apply_cmd.go:901-1012 | every status of a rollback as an if-and-only-if: nothing left to undo, nothing to find or to put back, or what the write came to: applied where no record of the op is left and every former one is back |
| `DnsRollback.UndoRemovesMean` | cmd/cpanel-self-migration/dns_apply_cmd.go:901-954 | the batch removes exactly the lines found for the ops that are undone |
| `DnsRollback.UndoAddsMean` | cmd/cpanel-self-migration/dns_apply_cmd.go:901-954 | and adds exactly the former records of the replaces among them |
| `DnsRestore.MatchesOwnRecord` | cmd/cpanel-self-migration/dns_apply_cmd.go:510-543 | a written line matches a planned record of its op if and only if it was written for that record |
| `DnsRestore.Restorable` | cmd/cpanel-self-migration/dns_apply_cmd.go:1048-1065 | a backed-up record written back says what the original said |
| `DnsRestore.BatchRemovesSets` | cmd/cpanel-self-migration/dns_apply_cmd.go:345-405 | the lines a batch removes are exactly those of the rrsets it replaces |
| `DnsRestore.FindsOwnLine` | cmd/cpanel-self-migration/dns_apply_cmd.go:1069-1083 | in the edited zone each planned record is found on the line written for it and on no other |
| `DnsRestore.RolledBackZoneIs` | cmd/cpanel-self-migration/dns_apply_cmd.go:871-1015 | the rolled-back zone is the untouched lines in their order, then the restored records |
| `DnsRestore.ApplyThenRollbackRestores` | cmd/cpanel-self-migration/dns_apply_cmd.go:304-1083 | with every write reported applied and no edit in between, apply and rollback restore the multiset of (type, canonical name, TTL, value) and keep every line of other rrsets, comments included, in order |
| `DnsRestore.ApplyAndRollBack` | cmd/cpanel-self-migration/dns_apply_cmd.go:304-1083 | run against a server, with nothing failing and nobody else editing: if every write is reported applied, the zone says what it said and the lines outside the written rrsets keep their order |
| `DnsPlan.BuildZonePlan` | internal/accountinventory/dnsplan.go:315-378 | whatever order the maps are walked in, the same ops and informational entries, by name and then by type, bytewise |
| `DnsPlan.BuildDNSPlan` | internal/accountinventory/dnsplan.go:239-313 | the zones both sides could read, planned and in the order of their names, and the other source zones, sorted, for a human |
| `DnsPlan.OpsAndInfosPartition` | internal/accountinventory/dnsplan.go:315-378 | ops and informational entries name every rrset of either side exactly once |
| `DnsPlan.PlanKeepsCnamesAlone` | internal/accountinventory/dnsplan.go:315-405 | writing every add and replace to a zone where no CNAME shares a name with another type keeps it that way (section 3.6.2 of RFC 1034, section 10.1 of RFC 2181) |
| `DnsPlan.WritesExactly` | internal/accountinventory/dnsplan.go:384-482 | an rrset is planned to be written if and only if its type is supported, it is no host validation record, has no CNAME conflict, every address is mapped, its text is valid and free of mapped addresses, and its values differ from the destination's as a multiset |
| `DnsPlan.SkipsExactly` | internal/accountinventory/dnsplan.go:384-482 | skip and manual as if-and-only-ifs over the values of the two sides as multisets: served by the host itself, an equal delegation, or an importable rrset whose meaning the destination already holds; the rest of those not written |
| `DnsPlan.ConflictIsExact` | internal/accountinventory/dnsplan.go:336-346 | a conflict is reported exactly where the name, as it stands on the two sides together, breaks the rule that a CNAME stands alone |
| `DnsPlan.HostValidationIs` | internal/accountinventory/dnsplan.go:538-552 | a host validation record is one whose first label is one of the two |
| `DnsPlan.PlannedActions` | internal/accountinventory/dnsplan.go:315-378 | so for every op of a built plan, by what the two sides hold under its key; an add has nothing there and a replace something |
| `DnsPlan.PlannedInfosMean` | internal/accountinventory/dnsplan.go:315-378 | every informational entry is an rrset that only the destination has, with its values as a multiset |
| `DnsPlan.FetchedIsLast` | internal/accountinventory/dnsplan.go:240-312 | of several fetch results for one zone the last counts |
| `DnsPlan.ZonesArePlanned` | internal/accountinventory/dnsplan.go:240-312 | every source zone is planned where both sides could be read and named for a human otherwise, and nothing else is |
| `DnsPlan.WrittenInOrder` | internal/accountinventory/dnsplan.go:455-482 | an add or replace carries every translated record, by their data bytewise; any other op carries none |
| `DnsPlan.TranslationMeaning` | internal/accountinventory/dnsplan.go:558-613 | what is written says what the source record said, addresses mapped, and its TTL is capped |
| `DnsPlan.TextIsWrittenWhole` | internal/accountinventory/dnsplan.go:558-600 | a TXT record's written segments join to its text, each valid and at most 255 bytes |
| `Sorting.SortStringsEqual` | internal/accountinventory/dnsplan.go:213-232 | comparing sorted values compares the multisets |
| `Sorting.StringLeMeans` | internal/accountinventory/dnsplan.go:213-222 | the order of texts is bytewise: a prefix comes first, otherwise the lesser first byte that differs |
| `DnsVerify.ComputeDesired` | internal/accountinventory/dnsverify.go:247-273 | the loop computes the desired values or finds a malformed record |
| `DnsVerify.TranslationInverts` | internal/accountinventory/dnsverify.go:247-273 | the value derived from a written record is the one it was translated from |
| `DnsVerify.WrittenOpDesires` | internal/accountinventory/dnsverify.go:247-273 | the desired values of an op are the sorted values its rrset was translated to, and differ from the destination's |
| `DnsVerify.VerifyDNSPlan` | internal/accountinventory/dnsverify.go:88-158 | per zone the specified verdicts and untracked rrsets, the summary counts them, and clean if and only if every zone was read, no op is pending or drifted, and no zone is left to a human |
| `DnsVerify.VerdictMeans` | internal/accountinventory/dnsverify.go:177-241 | all six verdicts as if-and-only-ifs, whatever has become of the rrset: a write is applied where its desired values exist and the live ones are those as a multiset, pending where it is well formed, not applied and the live values are those noted, a compared skip unchanged where they are; drift otherwise |
| `DnsVerify.ReportMeans` | internal/accountinventory/dnsverify.go:88-148 | a zone that could not be read has nothing to report; any other has a verdict for every op and its untracked rrsets with their values |
| `DnsVerify.UntrackedMeans` | internal/accountinventory/dnsverify.go:110-145 | a live rrset is untracked if and only if it is of a written type, no host validation record, and no op or informational entry names it |
| `DnsVerify.TotalsCount` | internal/accountinventory/dnsverify.go:88-158 | the summary counts the verdicts of all zones, the zones that could not be read, and the untracked rrsets |
| `DnsVerify.CleanMeans` | internal/accountinventory/dnsverify.go:88-158 | the report is clean if and only if every zone was read, no op is pending or drifted, and no zone is left to a human |
| `DnsVerify.UntrackedInOrder` | internal/accountinventory/dnsverify.go:133-146 | the untracked rrsets come by name, then by type |
| `DnsVerify.FreshOpVerdict` | internal/accountinventory/dnsverify.go:177-241 | against its own destination an add or replace is pending, a skip unchanged or not checked, a manual op up for review |
| `DnsVerify.NothingUntracked` | internal/accountinventory/dnsverify.go:130-147 | and no live rrset is untracked |
| `DnsVerify.FreshPlanVerifies` | internal/accountinventory/dnsverify.go:88-158 | verifying a whole plan against the destination it was built from: zero applied, drift, untracked and unavailable; pending = add + replace, unchanged + not_checked = skip, manual_review = manual |
| `DnsVerify.AppliedOpVerdict` | internal/accountinventory/dnsverify.go:177-241 | once an rrset holds exactly what was written for its op, the op verifies as applied |
| `DnsConverge.GroupAfter` | cmd/cpanel-self-migration/dns_apply_cmd.go:304-459 | after a run the rrset of every planned op is what the op wrote, or what it was |
| `DnsConverge.ApplyThenVerify` | internal/accountinventory/dnsverify.go:177-241 | after a run on the zone a plan was built from, every op that was written verifies as applied and every other as before: nothing drifts |
| `DnsConverge.ReplaceProceeds` | cmd/cpanel-self-migration/dns_apply_cmd.go:550-614 | on the unchanged zone a planned replace is skipped if and only if all its desired records are live, else carried out if and only if the live records compare as the values the plan noted, else refused for value drift |
| `DnsConverge.SameValueMeans` | internal/accountinventory/dnsplan.go:189-201 | two records of a type have the same plan value if and only if they say the same: canonical address, canonical host, preference and host, or text |
| `DnsConverge.PlanValueForm` | cmd/cpanel-self-migration/dns_apply_cmd.go:616-644 | a live record is recognised by the value the plan noted for it if and only if its type is in upper case and its address or host is spelled as the plan renders it, up to case and a trailing dot |
| `DnsConverge.ReplaceValues` | cmd/cpanel-self-migration/dns_apply_cmd.go:550-614 | an rrset whose records are all spelled so is recognised, and a record on its own only then |
| `DnsConverge.AbsoluteHost` | internal/accountinventory/dnsplan.go:115-134 | a host is spelled as the plan renders it if and only if it ends in a dot or is the zone itself, with no white space around it |
| `DnsConverge.RelativeTargetIsRefused` | cmd/cpanel-self-migration/dns_apply_cmd.go:550-614 | the input: a lone CNAME or MX whose live host is relative is refused for value drift although nothing changed |
| `DnsConverge.ShrinkingReplaceStaysPending` | cmd/cpanel-self-migration/dns_apply_cmd.go:579-614 | a replace is still pending after the run if and only if its desired records are all live already, so that it is skipped, or its rrset is not recognised, so that it is refused |
| `DnsConverge.PlanIsWellFormed` | internal/accountinventory/dnsplan.go:315-378 | a built plan meets what the restoration theorem asks of a plan |
| `DnsConverge.PlanAddsAbsent` | internal/accountinventory/dnsplan.go:315-378 | what it adds is absent from the zone it was built from |
| `DnsRestore.QuietRunApplies` | cmd/cpanel-self-migration/dns_apply_cmd.go:428-459 | an undisturbed run reports every write applied if and only if no replace it carries out keeps, in the form the comparisons look at, one of the values it was to take away |
| `DnsConverge.PlanApplyRollback` | cmd/cpanel-self-migration/dns_apply_cmd.go:304-1083 | planning, applying undisturbed and rolling back: every write is reported applied if and only if no replace keeps an old value, and then the zone says what it said and the lines outside the written rrsets keep their order |
| `EmailValues.SplitJoins` | internal/accountinventory/emailplan.go:170-180 | the lower-cased halves of a split address put together are its canonical form |
| `EmailValues.SimpleTargetMeans` | internal/accountinventory/emailplan.go:188-214 | a simple forward target is one address whose domain has a dot, without blanks, commas and pipes, and no file or system form |
| `Text.LowersLetters` | internal/accountinventory/emailplan.go:163-180 | folding maps the 26 capital letters to the small ones and no other byte |
| `EmailValues.EquivalentIsSameEffect` | internal/accountinventory/emailplan.go:216-246 | within one account the class-aware comparison is an equivalence: same text, or both fail, or both discard; across accounts it also identifies the account defaults |
| `EmailValues.StoredKeepsEffect` | internal/cpanel/email_apply.go:73-94 | what the server stores for a written default does what was asked, whatever wording it gives a system form |
| `EmailValues.SameContentIsSameNormal` | internal/accountinventory/emailplan.go:495-523 | autoresponder equality is equality of the stored forms, so storing a content keeps it equal |
| `EmailValues.NormalMeans` | internal/accountinventory/emailplan.go:495-523 | the stored form ends a body in one line end whatever it ended in, and takes no charset for utf-8 |
| `EmailValues.FiltersEquivalent` | internal/accountinventory/emailplan.go:638-666 | the loops decide equality of rules and actions, an absent destination counting as empty |
| `EmailValues.FilterKeyRoundTrip` | internal/accountinventory/emailapply.go:122-132 | a filter's key splits back into account and name if and only if the account has no slash and is not the account-level text |
| `EmailValues.PlainFilterKey` | internal/accountinventory/emailapply.go:122-132 | a key without a slash names a filter of the account itself |
| `EmailState.Find` | internal/accountinventory/emailapply.go:97-175 | each lookup loop returns the first match |
| `EmailState.LookupIsFirst` | internal/accountinventory/emailapply.go:97-175 | a value is looked up if and only if it is the one listed first |
| `EmailState.ForwardPairPresent` | internal/accountinventory/emailapply.go:86-94 | the loop decides whether the exact pair is live |
| `EmailState.DestForwardTargets` | internal/accountinventory/emailapply.go:74-83 | the loop returns the sorted canonical targets of an address |
| `EmailApply.EvaluateEmailOp` | internal/accountinventory/emailapply.go:212-317 | the guard decides as specified: already present, write while the plan-time state holds, refuse otherwise and on any failed listing or missing payload |
| `EmailApply.GuardMeans` | internal/accountinventory/emailapply.go:212-317 | its three decisions as if-and-only-ifs, section by section: the pair listed, the same effect, the same content, the same rules, the same mode; and the account as the plan noted it |
| `EmailApply.DecideMeans` | cmd/cpanel-self-migration/email_apply_cmd.go:560-628 | every decision before the first write as an if-and-only-if over op and listings |
| `EmailApply.RunEmailApply` | cmd/cpanel-self-migration/email_apply_cmd.go:560-772 | the evaluate, write and verify loops leave the account and report the statuses of the specified run, for every interleaving of edits and failures; an entry says applied if and only if the op was sent and its outcome observed |
| `EmailApply.TakeTurn` | cmd/cpanel-self-migration/email_apply_cmd.go:629-772 | one write: the re-check and write as one step, then the verdict of the re-list |
| `EmailApply.TurnStatusMeans` | cmd/cpanel-self-migration/email_apply_cmd.go:629-772 | all four statuses of a turn as if-and-only-ifs, for every op, account, interleaving and failure: applied where the write was sent, the re-list did not fail, and what it shows after people's edits is the outcome; failed where one of these is missing |
| `EmailApply.AppliedIsObserved` | cmd/cpanel-self-migration/email_apply_cmd.go:560-772 | so for every entry of a run's report: applied if and only if decided to be written, sent on its turn and observed after it |
| `EmailSafety.StepIsAdditive` | cmd/cpanel-self-migration/email_apply_cmd.go:629-772 | in whatever state people left the account, a tool step only appends forwarders, autoresponders and filters, replaces a default or routing mode only while it is the plan-time one, and only in its own section |
| `EmailSafety.MisaddressedOpOverwrites` | cmd/cpanel-self-migration/email_apply_cmd.go:667-700 | why an op must be checked under the address it writes: otherwise the autoresponder there survives only if absent or equal |
| `EmailSafety.RunKeeps` | cmd/cpanel-self-migration/email_apply_cmd.go:560-772 | what people and every tool step keep is kept over any stretch of any run |
| `EmailSafety.AddedSectionsSurvive` | cmd/cpanel-self-migration/email_apply_cmd.go:560-772 | no run removes or changes a forwarder, autoresponder or filter that people leave alone |
| `EmailSafety.ReplacedSectionsSurvive` | cmd/cpanel-self-migration/email_apply_cmd.go:560-772 | no run overwrites a default or routing mode that people leave alone, unless an op sets its domain and its plan-time value is the same up to the value classes |
| `EmailVerify.VerifyEmailPlan` | internal/accountinventory/emailverify.go:79-118 | per op the specified verdict, counted in the summary; clean means nothing pending, drifted, unavailable or manual |
| `EmailVerify.VerdictMeans` | internal/accountinventory/emailverify.go:123-344 | all six verdicts as if-and-only-ifs over what the listing shows |
| `EmailVerify.TallyCounts` | internal/accountinventory/emailverify.go:79-118 | each number of the summary is how often its verdict occurs |
| `EmailVerify.GuardAgreesWithVerify` | internal/accountinventory/emailverify.go:123-344 | guard and verifier never disagree: already present is applied, to be written is pending |
| `EmailVerify.OtherSlotsStay` | cmd/cpanel-self-migration/email_apply_cmd.go:629-772 | writing one op leaves every other op's outcome and precondition as they were |
| `EmailVerify.WriteIsDone` | internal/accountinventory/emailapply.go:181-205 | a write brings its own outcome about |
| `EmailVerify.CompleteRunApplies` | cmd/cpanel-self-migration/email_apply_cmd.go:560-772 | in a run of a ready plan without failures and edits every decided write is reported applied |
| `EmailVerify.CompleteRunIsDone` | internal/accountinventory/emailapply.go:181-317 | after it every create and set re-evaluates as already present and verifies as applied, every skip as unchanged |
| `EmailVerify.SecondRunWritesNothing` | cmd/cpanel-self-migration/email_apply_cmd.go:560-772 | so a second run decides no write |
| `EmailRollback.ComputeEmailRollback` | internal/accountinventory/emailapply.go:528-594 | one inverse for each applied op, in order, or an error when the report or backup lacks what it needs |
| `EmailRollback.InverseMeans` | internal/accountinventory/emailapply.go:528-594 | which ops have an inverse and what it is: the very item to remove, or the value the backup lists first to put back over the one set |
| `EmailRollback.UndosMean` | internal/accountinventory/emailapply.go:528-594 | a report can be rolled back if and only if every applied op has an inverse |
| `EmailRollback.UndosHold` | internal/accountinventory/emailapply.go:528-594 | the inverses are those of the applied ops, as a multiset |
| `EmailRollback.UndosInOrder` | internal/accountinventory/emailapply.go:528-594 | in report order: those of a part of the report are a prefix of those of the whole |
| `EmailRollback.RunEmailRollback` | cmd/cpanel-self-migration/email_apply_cmd.go:948-951 | the inverses are run in order, each with the specified effect and status |
| `EmailRollback.ExecuteEmailRollbackOp` | cmd/cpanel-self-migration/email_apply_cmd.go:978-1195 | one inverse: pre-check, write and verdict as specified |
| `EmailRollback.PrecheckMeans` | cmd/cpanel-self-migration/email_apply_cmd.go:978-1195 | the pre-check finds nothing left, or an item that is still to be undone, as if-and-only-ifs over the listing |
| `EmailRollback.UndoStatusMeans` | cmd/cpanel-self-migration/email_apply_cmd.go:978-1195 | every status of an inverse as an if-and-only-if, whatever people do before and after the write |
| `EmailRollback.UndoesOwnWork` | cmd/cpanel-self-migration/email_apply_cmd.go:978-1195 | in whatever state people left the account, an inverse changes nothing, or acts on an item that is still what the tool made of it, or is a restore whose expected value is empty |
| `EmailRollback.DivergedIsOverwritten` | cmd/cpanel-self-migration/email_apply_cmd.go:1059-1191 | a default address or routing mode that is neither what the tool had set nor what is to be put back is overwritten if and only if the expected value is empty and neither the listing nor the write fails |
| `EmailRollback.EmptyModeOverwritesAChoice` | cmd/cpanel-self-migration/email_apply_cmd.go:1172-1176 | the input: a mode that a person chose after the tool had set the empty one is lost |
| `EmailReady.UncheckedRestores` | internal/accountinventory/emailplan.go:425-825 | of the inverses of a built plan's ops, those without an expected value are exactly those of a routing op whose source mode is empty; no default address is restored unchecked |
| `EmailReady.BuiltRollbackKeepsDefault` | cmd/cpanel-self-migration/email_apply_cmd.go:1059-1107 | so rolling a built plan back never overwrites a default address that no longer does what was set, whatever people do meanwhile |
| `EmailReady.BuiltRollbackKeepsRoute` | cmd/cpanel-self-migration/email_apply_cmd.go:1142-1191 | nor a changed routing mode, if the source's mode for that domain is not empty |
| `EmailRollback.AppliedForwardIsOwn` | cmd/cpanel-self-migration/email_apply_cmd.go:629-666 | a forwarder create reported applied wrote its pair if and only if the pair was absent right before the write; otherwise it changed nothing |
| `EmailRollback.RacedForwardIsRemoved` | cmd/cpanel-self-migration/email_apply_cmd.go:986-1011 | so a pair that a person adds between guard and write is reported applied, and its inverse takes it away |
| `EmailRollback.OtherForwardSurvives` | cmd/cpanel-self-migration/email_apply_cmd.go:986-1011 | a forwarder that is none of the pairs to undo survives every rollback, however the account was edited |
| `EmailRollback.EditedResponderSurvives` | cmd/cpanel-self-migration/email_apply_cmd.go:1013-1057 | so does an autoresponder whose content is not the applied one |
| `EmailRollback.EditedFilterSurvives` | cmd/cpanel-self-migration/email_apply_cmd.go:1108-1140 | and a filter whose rules are not the applied ones |
| `EmailRollback.EditedDefaultSurvives` | cmd/cpanel-self-migration/email_apply_cmd.go:1059-1107 | and a default address that no longer does what the tool set, where what it set is not empty |
| `EmailRollback.EditedRouteSurvives` | cmd/cpanel-self-migration/email_apply_cmd.go:1142-1191 | and a routing mode that is no longer the one the tool set, where that is not empty |
| `EmailRestore.AppliedDiffers` | cmd/cpanel-self-migration/email_apply_cmd.go:560-772 | after a quiet run the account differs from before by the outcomes of the written ops and nothing else |
| `EmailRestore.UndoStepDiffers` | cmd/cpanel-self-migration/email_apply_cmd.go:978-1195 | each inverse goes ahead and takes exactly its op's outcome away |
| `EmailRestore.ApplyThenRollbackRestores` | internal/accountinventory/emailapply.go:528-594 | the report and backup of a quiet run yield inverses that restore the account: the same forwarders, autoresponders, filters and routing, default addresses up to their class |
| `EmailPlan.PlanForwarders` | internal/accountinventory/emailplan.go:341-419 | the loops over pairs and targets plan the specified ops, equal source pairs once |
| `EmailPlan.PlanDefaultAddresses` | internal/accountinventory/emailplan.go:425-489 | the loop plans the specified ops, nothing when either section is unavailable |
| `EmailPlan.PlanAutoresponders` | internal/accountinventory/emailplan.go:532-631 | the loop plans the specified ops, one per address |
| `EmailPlan.PlanFilters` | internal/accountinventory/emailplan.go:704-782 | the loop plans the specified ops, one per key |
| `EmailPlan.PlanRouting` | internal/accountinventory/emailplan.go:787-825 | the loop plans the specified ops |
| `EmailPlan.BuildEmailPlan` | internal/accountinventory/emailplan.go:263-335 | the ops of all five sections, in plan order |
| `EmailDelivery.PlanIsSorted` | internal/accountinventory/emailplan.go:263-335 | the plan holds the ops of all sections, by section, then domain, key and target, bytewise |
| `EmailDelivery.PlannedFrom` | internal/accountinventory/emailplan.go:263-825 | every op of a plan is planned from a source item of its section; default addresses, filters and routing only where both sides list them |
| `EmailDelivery.ForwardOpMeans` | internal/accountinventory/emailplan.go:341-419 | create, skip and manual as if-and-only-ifs over the two inventories; a create writes the source's pair up to case |
| `EmailDelivery.ForwardIsPlanned` | internal/accountinventory/emailplan.go:341-419 | every source pair is planned, by the first forwarder that lists it |
| `EmailDelivery.DefaultOpMeans` | internal/accountinventory/emailplan.go:425-489 | set, skip and manual as if-and-only-ifs over the two inventories; a set does what the source's value does |
| `EmailDelivery.ResponderOpMeans` | internal/accountinventory/emailplan.go:532-631 | create, skip and manual as if-and-only-ifs over the two inventories; a create writes the source's content, in stored form |
| `EmailDelivery.ResponderIsPlanned` | internal/accountinventory/emailplan.go:532-631 | every source address with an autoresponder is planned, by the first that lists it |
| `EmailDelivery.FilterOpMeans` | internal/accountinventory/emailplan.go:704-782 | create, skip and manual as if-and-only-ifs over the two inventories; a create writes the source's rules |
| `EmailDelivery.FilterIsPlanned` | internal/accountinventory/emailplan.go:704-782 | every source filter key is planned, by the first that lists it |
| `EmailDelivery.RouteOpMeans` | internal/accountinventory/emailplan.go:787-825 | set, skip and manual as if-and-only-ifs over the two inventories; a set writes the source's mode |
| `EmailReady.BuiltPlanIsReady` | internal/accountinventory/emailplan.go:263-315 | on the destination it was built from every create and set of a plan is decided to be written, every skip is right, and no two ops share a slot or a pair |
| `EmailReady.BuiltPlanVerifiesFresh` | internal/accountinventory/emailverify.go:79-118 | verified against that destination every create and set is pending, every skip unchanged: no drift, nothing applied |
| `EmailReady.BuiltPlanConverges` | cmd/cpanel-self-migration/email_apply_cmd.go:560-772 | after a quiet run of a built plan every write is applied, re-evaluating decides already_present throughout, and nothing is pending or drifted |
| `EmailDelivery.OpIsDelivered` | cmd/cpanel-self-migration/email_apply_cmd.go:560-772 | after a quiet run of a built plan the account shows what every create and set was to bring about and still has what every skip left |
| `EmailDelivery.ForwardArrives` | cmd/cpanel-self-migration/email_apply_cmd.go:560-772 | so every source pair that can be carried over is listed |
| `EmailDelivery.ResponderArrives` | cmd/cpanel-self-migration/email_apply_cmd.go:560-772 | every source autoresponder that can be carried over is at its address, with the source's content in stored form |
| `EmailDelivery.FilterArrives` | cmd/cpanel-self-migration/email_apply_cmd.go:560-772 | every source filter of one rule at most whose key is free or holds the same is there under its key, with its rules |
| `EmailDelivery.DefaultArrives` | cmd/cpanel-self-migration/email_apply_cmd.go:560-772 | every source default worth setting over a fresh one does on the destination what it did |
| `EmailDelivery.RouteArrives` | cmd/cpanel-self-migration/email_apply_cmd.go:560-772 | every source routing mode of a domain the destination lists is the destination's |
| `EmailReady.BuiltPlanRollsBack` | cmd/cpanel-self-migration/email_apply_cmd.go:864-973 | and rolling the run back restores the account |
| `EmailReady.ChosenDefaultIsNeverOverwritten` | internal/accountinventory/emailplan.go:425-489 | whatever people do meanwhile, no run of a built plan overwrites a default address that is not a fresh account's |
| `EmailReady.DuplicatePairIsRefused` | internal/accountinventory/emailapply.go:212-232 | on the unchanged destination a planned create is let through if and only if every pair of its address is listed exactly once under the op's domain: a pair listed twice, or under another domain only, makes it refused |
| `EmailReady.NotedAsCounted` | internal/accountinventory/emailplan.go:341-419 | the targets the plan notes for an address, each pair once, are those the guard counts, each listing, under that same condition |
| `WireCodecs.ArgRoundTrip` | internal/cpanel/api.go:88-95 | form decoding (section 8.2.1 of RFC 1866) of an encoded argument gives the argument, for every text |
| `WireCodecs.RawArgArrives` | internal/cpanel/api.go:74-87 | an argument sent as it is arrives unchanged if and only if it holds no plus and no percent sign before two hexadecimal digits |
| `WireCodecs.QuotedNameReadsBack` | internal/dbmig/deepverify.go:48-50 | reading a backtick-quoted identifier gives the name, for every name, and stops right after it |
| `WireCodecs.HexRoundTrip` | internal/dbmig/dbmig.go:307-321 | a name comes back from its hex form |
| `WireCodecs.DecodedForm` | internal/dbmig/dbmig.go:307-321 | a decodable text is the hex form of its name up to case and surrounding white space |
| `WireCodecs.RowCountSQL` | internal/dbmig/deepverify.go:59-68 | the loop and join build the statement of all parts |
| `WireCodecs.RowCountReadsBack` | internal/dbmig/deepverify.go:59-68 | reading the statement back, every part counts the table it is labelled with, whatever the names |
| `DeepVerify.ParseRowCounts` | internal/dbmig/deepverify.go:85-103 | the loop builds the map of the well-formed lines, the last of equal labels counting |
| `DeepGrammar.SignedIs` | internal/dbmig/deepverify.go:85-103 | a sign, or none, and digits are read as that number, or as the nearest bound of 64 bits when out of range |
| `DeepGrammar.NumberIsSigned` | internal/dbmig/deepverify.go:85-103 | nothing else is a number |
| `DeepGrammar.RowIsRead` | internal/dbmig/deepverify.go:85-103 | a line of a label, its last tab and a number of 64 bits, over trailing carriage returns, is that row |
| `DeepGrammar.ReadIsRow` | internal/dbmig/deepverify.go:85-103 | no other line is one |
| `DeepVerify.ParseMeta` | internal/dbmig/deepverify.go:167-193 | version, counters, sorted names and verdict of the lines |
| `DeepGrammar.MetaLineMeans` | internal/dbmig/deepverify.go:160-193 | what a line notes as if-and-only-ifs over its fields between tabs: a version, a table with its counter, a table whose name does not decode, or nothing |
| `DeepGrammar.VersionIsLast` | internal/dbmig/deepverify.go:160-193 | the version is the one given last, and empty where none is given |
| `DeepVerify.MetaVerdict` | internal/dbmig/deepverify.go:160-193 | the verdict is that some line gives a version and no table line fails to decode |
| `DeepVerify.VerdictIgnoresOrder` | internal/dbmig/deepverify.go:160-193 | so it does not depend on the order of the lines |
| `DeepVerify.Correlate` | internal/dbmig/deepverify.go:212-241 | the loop over labels and its guard, walked in any order: it passes exactly when as many labels match as there are names |
| `DeepVerify.GuardIsExact` | internal/dbmig/deepverify.go:212-241 | whatever the labels: where no table has two, the guard passes if and only if no name is listed twice and every one has a label; where no name is listed twice and it passes, every table has a label if and only if none has two |
| `DeepVerify.AskedLabelsCorrelate` | internal/dbmig/deepverify.go:212-241 | with upper-case labels the guard passes if and only if no name is listed twice and every one has its label, and each table then gets the count of its own label |
| `DeepVerify.MixedCaseLabelsMislead` | internal/dbmig/deepverify.go:212-241 | with a label in both cases it can pass although a table has no count |
| `DeepVerify.DeepTables` | internal/dbmig/deepverify.go:199-244 | with labels as asked for, every table gets its own reported count or the call fails |
| `DeepVerify.ReadHonestServer` | internal/dbmig/deepverify.go:199-244 | from a server's replies on any tables, names of any bytes, exactly those tables are read, each with its own count and counter |
| `InventoryDiff.DiffKeyed` | internal/accountinventory/diff.go:148-193 | the loops over both maps report exactly the added and removed keys and the differing source fields, sorted |
| `InventoryDiff.KeyedIsLast` | internal/accountinventory/diff.go:148-193 | of several items with one key the last is compared |
| `InventoryDiff.ReportIsOrdered` | internal/accountinventory/diff.go:222-245 | entries come by key and then by detail, changes by key and then by field, bytewise |
| `InventoryDiff.DiffIsUnique` | internal/accountinventory/diff.go:222-245 | whatever order the maps are walked in, the report is the same |
| `InventoryDiff.KeysArePatched` | internal/accountinventory/diff.go:148-193 | taking Removed out of the source's keys and putting Added in gives the destination's, and they name nothing else |
| `InventoryDiff.FieldIsPatched` | internal/accountinventory/diff.go:148-193 | making the changes turns a field of a common item into the destination's if and only if the source item has the field or the destination's is empty |
| `InventoryDiff.ChangeIsAt` | internal/accountinventory/diff.go:148-193 | every change names a field that differs, with both its values |
| `InventoryDiff.SidesSwap` | internal/accountinventory/diff.go:148-193 | exchanging the sides exchanges Added and Removed and, where items have the same fields, the two values of every change |
| `InventoryDiff.DiffCron` | internal/accountinventory/diff.go:505-585 | the loops over commands and slots report exactly the surplus slots of either side, and the changes of commands scheduled once on both, sorted |
| `InventoryDiff.SlotMeans` | internal/accountinventory/diff.go:505-585 | two jobs have one slot text if and only if schedule and flag are equal |
| `InventoryDiff.CronDiffIsUnique` | internal/accountinventory/diff.go:505-585 | whatever order the maps are walked in, the report is the same |
| `InventoryDiff.SlotsAreConserved` | internal/accountinventory/diff.go:545-581 | source slots + added = destination slots + removed as multisets, and no slot is both added and removed |
| `InventoryDiff.OneJobChanges` | internal/accountinventory/diff.go:546-560 | a command scheduled once on either side is reported as changed if and only if its schedule or its flag differs |

## Left out

- Everything that talks to a server, reads or writes a file, parses flags, prints or handles signals: its
  results are parameters (`Faults`, `Turn`, `Live`, the two replies of `DeepTables`).
- Provenance, hashes, timestamps, reason texts, source values and the TTL-capped flag of reports and plans.
- Unicode white space and case: trimming and folding are the ASCII ones.
- The canonical form of an IP address (`netip`) is a function parameter, idempotent where a lemma needs it.
- The regular-expression parsers and rewriters of the other CMS files, comment stripping and the escaping of
  values; an escaped replacement body is a hypothesis. Of `rewriteMagento` only the effect of one literal
  replacement inside the bound span is modelled, not the key search inside it.
- SetThenValue: says nothing of values with a single quote before their first line break; the lines after the break are
  then read as assignments, so what comes back depends on the rest of the file.
- The rollbacks without a report, which restore unconditionally, and the dry runs.
- A write whose response is lost after the server accepted it: a failed write changes nothing here.
- The server stores a record's name and data as sent and returns them so, and a TXT record's segments joined.
- The loops over several zones in apply and rollback, each zone being independent of the others.
- The policy and checklist layers, schema and checksum comparison, cron merging, diffs of DNS zones, and the
  informational and untracked listings of the email plan and verifier, which never gate anything.
- A forwarder op's display text of the destination's targets, and an unavailable section's manual entry.
- ArrayBlockBounds: the pattern that recognises a key and its opener is a function of its own, with the
  pattern's white space and keywords, in place of a regular expression engine.
- ChildAtBoundary: assumes that wherever the pattern matches the key, the matched literal is one token of the text;
  PlainKeysAreWhole gives this for keys without quotes and backslashes between equal quotes, and
  SkewedEditMovesTheOuterEnd shows what unequal quotes do.
- EditKeepsWalk: assumes keys without opening brackets, as the fixed keys of every caller are.
- ApplyThenRollbackRestores: assumes of a DNS plan that names survive being written, that the desired records
  of an op differ in form, and that what is added is absent; PlanIsWellFormed and PlanAddsAbsent prove this of
  built plans whose names and records are regular.
- RunEmailApply: a re-check and its write are one step; the window of a single request between them is not
  modelled. A write loop's op with no writer is reported failed as in the code, though no such op is decided.
- ExecuteEmailRollbackOp: op domains are taken to carry no surrounding white space.
- StepIsAdditive: assumes that a create is checked under the address it writes, as every built plan's is;
  MisaddressedOpOverwrites states what happens otherwise.
- AddedSectionsSurvive: assumes the same.
- ReplacedSectionsSurvive: assumes the same.
- BuiltPlanIsReady: assumes unique domain names per section, forwarders and autoresponders listed under the
  domain of their address, no pair listed twice, and filter accounts that are mailbox names.
- BuiltPlanVerifiesFresh: assumes the same of the inventories.
- BuiltPlanConverges: assumes the same.
- BuiltPlanRollsBack: assumes the same.
- OpIsDelivered: assumes the same, and a run without failures and edits by people.
- ForwardArrives: assumes the same.
- ResponderArrives: assumes the same.
- FilterArrives: assumes the same.
- DefaultArrives: assumes the same.
- RouteArrives: assumes the same.
- PlanForwarders: the informational entries of the section are not modelled.
- PlanDefaultAddresses: nor are they here, nor the manual entry of an unavailable section.
- PlanAutoresponders: the same.
- PlanFilters: the same.
- PlanRouting: the manual entry of an unavailable section is not modelled.
- VerifyEmailPlan: the listing of untracked items is not modelled.
- EditedDefaultSurvives: assumes a non-empty expected value; DivergedIsOverwritten states what happens without one.
- EditedRouteSurvives: assumes the same.
- BuiltRollbackKeepsRoute: assumes that the source's mode for the domain is not empty; EmptyModeOverwritesAChoice shows
  what happens otherwise.
- BuildDNSPlan: the address map is given in canonical form, and the plan's summary is not modelled.
- ApplyAndRollBack: the statuses of the rollback are those of RollbackZone; nothing more is stated of them.
- BuildEmailPlan: sorting is stable here; the code's sort may order equal keys either way.
- DiffKeyed: the warnings about duplicate keys are not modelled.
- DiffCron: the skip of a section that one side could not read is not modelled. The redacted command stands for
  the hash jobs are grouped by, as the code itself assumes, and a command that only one side has is handled by the
  general surplus count, with the same report.
