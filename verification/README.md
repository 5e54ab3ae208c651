# Verified model of the backup transport and the financial database guards

This project models the parts of the savings-group application whose
correctness is hardest to see by reading them, and proves what they promise.

- **Resumable off-VM upload** (`UploadClient.dfy`, `DriveSession.dfy`,
  `DriveUpload.dfy`, `UploadRuns.dfy`, `UploadRules.dfy`). The client of `backup_transport.py`
  drives a server that may lose replies, fail, commit any part of a chunk, or
  land an upload without saying so. The server is a class whose methods choose
  among these faults; all it promises is that it keeps a contiguous committed
  prefix, never takes committed bytes back, and reports them truthfully. A
  *steady* server only loses replies to chunks, answers them with server faults
  or rate limits, and otherwise does its work. The client is also given as a
  machine on values; the upload loop is proved to be that machine, and what calls
  do to the server is proved to be a run of a system in which given-up sessions
  may land at any moment.
- **Envelope** (`Packages.dfy`, `MemberOrder.dfy`, `Envelope.dfy`,
  `EnvelopeRules.dfy`). Building,
  inspecting and extracting the portable archive of a backup package.
- **Package upload** (`PackageUpload.dfy`). A package directory packed, uploaded,
  confirmed, downloaded, extracted and restored, from end to end.
- **Evidence backup and restore** (`EvidenceBackup.dfy`, `EvidenceRestore.dfy`,
  `RestoreRules.dfy`).
  The database's evidence references, the encrypted package and the isolated
  restore of `data_protection.py`, up to the end-to-end statement.
- **SQLite table rebuild** (`SqlGrammar.dfy`, `SqlStatement.dfy`,
  `CycleMigration.dfy`, `DefinitionRules.dfy`, `HeaderRules.dfy`, `SqlTokens.dfy`, `TokenRules.dfy`, `SqlText.dfy`, `TableRows.dfy`,
  `CycleTables.dfy`, `CopyRules.dfy`, `ClockColumn.dfy`, `NamedUnique.dfy`). The scanner that splits a `CREATE TABLE`
  statement, the printer that puts it back, how SQLite reads a definition by its
  first token, how a statement's text is read for bind parameters, how rows are
  copied by unquoted names, and the two rebuilds of revision 0096 with their
  replacement tables.
- **Financial state machines** (`SqlLogic.dfy`, `GainEvents.dfy`,
  `AnnualClosing.dfy`, `ClosingAdmission.dfy`, `PayoutDestinations.dfy`,
  `Verification.dfy`, `VerificationAdmission.dfy`). The
  triggers, CHECKs, unique and foreign keys of revisions 0098 to 0102 in both
  dialects, with SQL's three-valued logic written out and SQLite's
  `foreign_keys` setting as part of the dialect. A statement is one step; a run
  is a sequence of admitted steps from empty tables. For every table a statement
  is shown to be admitted exactly under conditions written in two-valued logic
  over the rows, without the guards (`AdmittedIff` in each module).
- **Ledger hash chain** (`LedgerChain.dfy`). The chain revision 0013 builds.

Archive format, JSON text, hashing and encryption are function parameters. Each
lemma names the laws it needs of them: an archive and a JSON text are read back
as they were written (`Tools.Lawful`), decryption undoes encryption
(`Vault.Lawful`), a hash has no collisions (`CollisionFree`).

## What the proofs found

- Upload termination depends on the server never taking committed bytes back:
  `ResumableSession.GrowingReportsStop` bounds the loop,
  `ResumableSession.RewindingReportsNeverStop` gives reports that keep it
  running for any number of turns.
- The folder can still get a second object with one backup id: a session that an
  earlier call gave up may complete afterwards. `UploadRuns.LateLandingReachable`
  is such a run, in which the first call's replies are all lost and the second
  call succeeds before the first session lands. In every run there is at most one
  object exactly when no given-up session lands beside another landing
  (`UploadRuns.OneCopyIff`), every object is a whole file under its own labels
  (`UploadRuns.EveryCopyIsFaithful`), and every later call refuses to go on. A
  success speaks of the moment of the call's last listing: the copy is the file,
  and it is the only one on return exactly when nothing landed in between
  (`UploadRuns.SuccessMeans`).
- An upload on a steady server fails exactly when more than MAX_RETRIES chunks are
  rate-limited without a chunk answered 308 between them
  (`ResumableSession.UploadSession`).
- Inspection does not look at a member without metadata, and it looks at the last
  of several evidence entries for one file only. So a complete manifest that says
  nothing about the archive, and one whose earlier entry has a wrong hash, pass
  inspection and fail extraction (`Envelope.SilentArchivePassesInspection`,
  `Envelope.RepeatedEntryPassesInspection`). Extraction accepts exactly what
  inspection accepts when the manifest gives archive metadata that is not null
  and entries for one file agree in size and hash (`Envelope.InspectIsExtract`).
- A complete receipt can be followed by a failed one: `chmod` runs after the
  receipt took effect, and when it raises the handler writes FAILED_OFF_VM over
  COMPLETE_OFF_VM, still naming the verified remote copy
  (`DriveUpload.Destination.Record`).
- The classifier of table constraints looks at a prefix only. It agrees with
  SQLite's reading exactly on definitions that are no column whose name begins
  with UNIQUE or CHECK (`check_date DATE`) and no constraint spelled otherwise
  than with the one blank it asks for (`SqlTokens.ClassifierAgrees`). The upgrade
  takes a table with such a column, and the downgrade then prints a constraint
  before a column, which no CREATE TABLE takes (`SqlTokens.MisreadStopsDowngrade`).
- A table that already has a replacement's name stops a rebuild, and a rebuild
  that fails after CREATE TABLE leaves its replacement behind, where it stops the
  next attempt. `CycleTables.RebuildAccepts`, `CycleTables.ReduceAccepts` and
  `CycleTables.MigrationThereAndBack` give the exact conditions. Two rows of one
  member without a cycle pass the downgrade's guard and stop it at the restored
  UNIQUE (`CycleTables.DowngradeAccepts`).
- The copy names the columns without quotes, so a column called CURRENT_DATE,
  CURRENT_TIME or CURRENT_TIMESTAMP, which SQLite allows, is not read: each row
  gets the time of the copy (`ClockColumn.ClockOverwrites`). The migration there
  and back restores every row, whatever the time, exactly when no table with rows
  has such a column (`CycleTables.RowsComeBackAtAnyTime`). Columns such as `cast`,
  `raise` or `"$x"` stop the copy after the replacement was created.
- The statements go through `sa.text`, so a `:word` in what is kept of a table, as
  in `DEFAULT ':none'`, is taken for a bind parameter and stops the rebuild
  (`SqlText.BuiltParameter`).
- SQLite and PostgreSQL guards differ on null columns; NOT NULL closes that gap
  (`GuardsDiffer` gives the exact condition, `SameSteps` the equality).
- SQLite's approved-link trigger does not fire on statements that move a linked
  closing. Foreign keys close that gap, but `backend/app/db/session.py` and
  `backend/alembic/env.py` open SQLite without `PRAGMA foreign_keys=ON`, and
  SQLite's default is off. With the setting the two dialects admit the same steps
  (`AnnualClosing.SameSteps`); without it PostgreSQL rejects exactly the admitted
  steps that move or delete a closing named elsewhere or add a row that names a
  missing one (`AnnualClosing.WithoutForeignKeys`), and there are runs from empty
  tables in which a link that was set moves away from its review or vanishes
  (`AnnualClosing.LinkLostWithoutForeignKeys`). In every run, links hold exactly
  when no step moves or deletes a closing whose link is set
  (`AnnualClosing.LinksHoldIff`). The guards of revision 0102 need
  no foreign keys (`Verification.StepKeepsReferences`).
- The ledger chain does not see row ids or fractions of a cent; it sees everything
  else (`LedgerChain.TailPinsChain`, `LedgerChain.IdsNotHashed`).

`dafny verify dfyconfig.toml` checks the whole project. Nothing of the original
program is executed.

## Model

| member | source | states |
|---|---|---|
| `SqlGrammar.ScanTree` | backend/alembic/versions/0096_cycle_foundation_a377a.py:30-66 | The scanner reads the text of any well-formed tree (plain characters, quoted and bracketed parts, groups) to the end and returns to the state it started in; top-level commas only where the tree has none |
| `SqlGrammar.Derive` | backend/alembic/versions/0096_cycle_foundation_a377a.py:30-66 | Conversely, whenever the scanner succeeds from some depth, the text is what is left of that many open groups, each a well-formed tree |
| `SqlGrammar.CutIffGrammar` | backend/alembic/versions/0096_cycle_foundation_a377a.py:30-66 | The scanner yields `ps` exactly when `ps` are balanced pieces without top-level commas whose comma-join is the body: it cuts at all top-level commas and nowhere else |
| `SqlGrammar.CutIffBalanced` | backend/alembic/versions/0096_cycle_foundation_a377a.py:30-66 | The scanner succeeds exactly on bodies balanced in parentheses, quotes and brackets |
| `SqlGrammar.CutOfJoin` | backend/alembic/versions/0096_cycle_foundation_a377a.py:30-66 | Joining comma-free balanced pieces by commas and scanning gives the pieces back |
| `SqlGrammar.TrimDefinition` | backend/alembic/versions/0096_cycle_foundation_a377a.py:55-59 | A trimmed piece is still balanced and free of top-level commas |
| `SqlStatement.SplitDefinitions` | backend/alembic/versions/0096_cycle_foundation_a377a.py:17-66 | The one-pass loop over `depth`, `quote`, bracket mode and `start` computes the recursive specification `Split`, errors included |
| `SqlStatement.SplitAccepts` | backend/alembic/versions/0096_cycle_foundation_a377a.py:17-66 | Splitting succeeds exactly when the text between the first `(` and the last `)` is a comma-separated list of balanced, non-blank definitions |
| `SqlStatement.SplitGivesDefinitions` | backend/alembic/versions/0096_cycle_foundation_a377a.py:17-66 | Each definition returned is the trimmed piece, non-empty, balanced and free of top-level commas; the kept prefix has no `(` and the kept suffix no `)` |
| `SqlStatement.SplitOfPrinted` | backend/alembic/versions/0096_cycle_foundation_a377a.py:126-158 | Splitting a printed statement gives back exactly the definitions it was printed from, for every list of trimmed, balanced, comma-free definitions |
| `SqlStatement.RebuiltSplits` | backend/alembic/versions/0096_cycle_foundation_a377a.py:126-158 | The built statement, and the same statement after the replacement is renamed back, splits into exactly the given definitions and its table name is found again |
| `SqlStatement.PlainStatement` | backend/alembic/versions/0096_cycle_foundation_a377a.py:126-158 | A plain `CREATE TABLE` header, the name, white space and any good definitions form a statement that is accepted under that name |
| `TokenRules.BareIff` | backend/alembic/versions/0096_cycle_foundation_a377a.py:209-225 | The column names the copy can write without quotes: name characters only, no digit or dollar sign in front, and no reserved word in any case |
| `TokenRules.KeywordsNotBare` | backend/alembic/versions/0096_cycle_foundation_a377a.py:209-225 | Columns called `cast`, `raise`, `order` or the like cannot be copied |
| `TokenRules.ConstraintTextIff` | backend/alembic/versions/0096_cycle_foundation_a377a.py:69-77 | What SQLite takes for a table constraint: a definition whose whole first word is one of five keywords |
| `TokenRules.QuotedName` | backend/alembic/versions/0096_cycle_foundation_a377a.py:98-107 | A quoted name, with each quote in it doubled, is read back as it was, in lower case |
| `HeaderRules.HeaderIff` | backend/alembic/versions/0096_cycle_foundation_a377a.py:138-144 | Before the table's name stand CREATE TABLE, or CREATE TABLE IF NOT EXISTS, in any case and with any white space, and white space at the end |
| `HeaderRules.FormMatched` | backend/alembic/versions/0096_cycle_foundation_a377a.py:129-158 | A table's name is found plain, in double quotes, in backquotes and in brackets, in any case, and what stands before and after it is kept |
| `HeaderRules.MatchedParts` | backend/alembic/versions/0096_cycle_foundation_a377a.py:129-158 | Nothing else is found: a match is a header, one of these forms, and white space |
| `DefinitionRules.ConstraintIff` | backend/alembic/versions/0096_cycle_foundation_a377a.py:69-77 | A table constraint is what starts, after white space and in any case, with one of five texts |
| `DefinitionRules.ColumnListIs` | backend/alembic/versions/0096_cycle_foundation_a377a.py:80-84 | A column list is its texts between commas, each without surrounding white space, then without surrounding quotes and brackets, in lower case |
| `DefinitionRules.ColumnNameIff` | backend/alembic/versions/0096_cycle_foundation_a377a.py:98-107 | The name of a column is the non-empty text its first quote or bracket encloses, or else its first word, in lower case; constraints have none |
| `DefinitionRules.RebuiltIff` | backend/alembic/versions/0096_cycle_foundation_a377a.py:171-202 | The list a rebuild prints: exactly one UNIQUE constraint on the old columns goes, the new column has a name no column has and stands between columns and constraints, and all others keep their order |
| `DefinitionRules.ReducedIff` | backend/alembic/versions/0096_cycle_foundation_a377a.py:303-350 | The list a removal prints: exactly one column of the name goes, and the UNIQUE to restore, which must not be there, stands before the first constraint |
| `CycleMigration.UniqueDefinitionRead` | backend/alembic/versions/0096_cycle_foundation_a377a.py:87-95 | The UNIQUE a downgrade writes is read back as a table constraint on exactly its columns |
| `NamedUnique.NamedUniqueRead` | backend/alembic/versions/0096_cycle_foundation_a377a.py:87-95 | `CONSTRAINT`, a name and `UNIQUE (columns)` are read as the columns, whatever the name, the case of the two words and the white space between them |
| `NamedUnique.OnlyTwoForms` | backend/alembic/versions/0096_cycle_foundation_a377a.py:87-95 | Whatever is read as a UNIQUE has one of the two forms, with or without a constraint name |
| `NamedUnique.UniqueColumnsIff` | backend/alembic/versions/0096_cycle_foundation_a377a.py:87-95 | A definition is read as a UNIQUE on given columns exactly when it has one of the two forms over a list that normalises to them |
| `NamedUnique.PlainTableUpgrades` | backend/alembic/versions/0096_cycle_foundation_a377a.py:161-230 | The upgrade takes every table printed from plain columns and a named UNIQUE on the old key |
| `CycleMigration.RestoredKeeps` | backend/alembic/versions/0096_cycle_foundation_a377a.py:305-344 | The restored list has the original columns in order, the other constraints in relative order, and one UNIQUE on the same columns |
| `CycleMigration.ReducedAfterRebuilt` | backend/alembic/versions/0096_cycle_foundation_a377a.py:161-344 | Downgrading a rebuilt list never trips a structural check and gives the restored list; rebuilding that gives the definitions of the first rebuild |
| `CycleMigration.MisreadColumn` | backend/alembic/versions/0096_cycle_foundation_a377a.py:69-77 | A column definition that starts with CHECK in any case is treated as a constraint: the rebuild puts the new column before it (the exact condition is the next row) |
| `SqlTokens.ClassifierAgrees` | backend/alembic/versions/0096_cycle_foundation_a377a.py:69-77 | The prefix classifier agrees with SQLite's first token exactly on definitions that are neither a column whose name goes on after UNIQUE or CHECK nor a CONSTRAINT, PRIMARY or FOREIGN without the one blank it asks for |
| `SqlTokens.UniqueIsConstraint` | backend/alembic/versions/0096_cycle_foundation_a377a.py:87-95 | A UNIQUE the migration recognises on its columns is a table constraint for SQLite too |
| `SqlTokens.RebuiltCreatable` | backend/alembic/versions/0096_cycle_foundation_a377a.py:161-199 | CREATE TABLE takes the rebuilt list exactly when no constraint of the old table was missed and no old column has the new name |
| `SqlTokens.RestoredCreatable` | backend/alembic/versions/0096_cycle_foundation_a377a.py:305-344 | CREATE TABLE takes the list restored after an upgrade exactly when no column was misread as a constraint |
| `SqlTokens.MisreadStopsDowngrade` | backend/alembic/versions/0096_cycle_foundation_a377a.py:305-355 | The upgrade takes a table with a misread column, and the list its downgrade prints has a constraint before a column |
| `SqlTokens.ColumnSetRebuilt` | backend/alembic/versions/0096_cycle_foundation_a377a.py:197-225 | The rebuilt list has, by token, exactly the old column names and the new one |
| `SqlTokens.ColumnSetRestored` | backend/alembic/versions/0096_cycle_foundation_a377a.py:305-363 | The restored list has, by token, exactly the original column names |
| `SqlTokens.ColumnSetReduced` | backend/alembic/versions/0096_cycle_foundation_a377a.py:305-363 | The reduced list has, by token, exactly the old column names without the dropped one, provided the others can be written without quotes |
| `SqlTokens.NamedToken` | backend/alembic/versions/0096_cycle_foundation_a377a.py:80-84 | A column the migration reads under a plain name has that name for SQLite, or one that cannot be copied without quotes |
| `CycleTables.Classify` | backend/alembic/versions/0096_cycle_foundation_a377a.py:173-180 | The loop separates the definitions read as columns from those read as table constraints, each in order |
| `CycleTables.WithoutUnique` | backend/alembic/versions/0096_cycle_foundation_a377a.py:181-196 | The loop keeps the constraints other than UNIQUE on the target columns and counts the dropped ones |
| `SqlTokens.ReducedCreatable` | backend/alembic/versions/0096_cycle_foundation_a377a.py:305-355 | CREATE TABLE takes the list without the dropped column exactly when no column was misread and another column is left |
| `SqlTokens.InsertKeepsOrder` | backend/alembic/versions/0096_cycle_foundation_a377a.py:326-344 | A UNIQUE written before the first constraint keeps columns before constraints exactly when nothing is misread |
| `SqlText.BuiltParameter` | backend/alembic/versions/0096_cycle_foundation_a377a.py:201-210 | The text of a rebuild has a bind parameter, and fails, exactly when a definition it prints or the old suffix has one |
| `SqlText.SuffixKept` | backend/alembic/versions/0096_cycle_foundation_a377a.py:126-158 | The rebuilt statement keeps what followed the last parenthesis |
| `TableRows.ReadsAsStored` | backend/alembic/versions/0096_cycle_foundation_a377a.py:212-225 | Rows read by unquoted names are the stored rows exactly when they agree with the clock under the three CURRENT_ names |
| `TableRows.AgreesAtAnyTime` | backend/alembic/versions/0096_cycle_foundation_a377a.py:212-225 | Rows agree with every clock exactly when none of them has one of the three names |
| `CycleTables.SqliteDatabase.Replace` | backend/alembic/versions/0096_cycle_foundation_a377a.py:201-227 | Create the replacement, copy the rows as unquoted names read them, drop the table, rename: each can fail where SQLite or `sa.text` fails (bind parameter, name taken in any case, list not a table, name in need of quotes, restored UNIQUE violated), and what the statements before the failure did stays |
| `CycleTables.ReplaceAccepts` | backend/alembic/versions/0096_cycle_foundation_a377a.py:201-227 | These statements go through exactly when the text has no bind parameter, the replacement's name is free, CREATE TABLE takes the list, the copied names need no quotes and the rows as they are read obey the restored UNIQUE; then only the one table changed |
| `CycleTables.SqliteDatabase.Rebuild` | backend/alembic/versions/0096_cycle_foundation_a377a.py:161-230 | The method with its loops computes the rebuild's specification `Rebuilt`, the database after a failure included |
| `CycleTables.SqliteDatabase.RemoveColumn` | backend/alembic/versions/0096_cycle_foundation_a377a.py:293-376 | The method with its loops computes the removal's specification `Reduced`, the database after a failure included |
| `CycleTables.SqliteDatabase.Upgrade` | backend/alembic/versions/0096_cycle_foundation_a377a.py:251-253 | The upgrade rebuilds both tables in turn; when the second rebuild fails the first one stands |
| `CycleTables.SqliteDatabase.Downgrade` | backend/alembic/versions/0096_cycle_foundation_a377a.py:379-402 | The downgrade reduces both tables in turn; with a cycle-scoped row in either table it fails and changes nothing |
| `CycleTables.RebuildAccepts` | backend/alembic/versions/0096_cycle_foundation_a377a.py:161-230 | A rebuild succeeds exactly when the statement splits under its own name with one UNIQUE on the old columns and no column of the new name, what is kept has no bind parameter, the replacement's name is free, no constraint was missed, and the old names need no quotes |
| `CopyRules.StoppedLeaves` | backend/alembic/versions/0096_cycle_foundation_a377a.py:161-230 | What a rebuild leaves that stops: everything as it was up to the CREATE TABLE, and the empty replacement beside the table when the names cannot be copied or a UNIQUE is violated |
| `CopyRules.GuardStops` | backend/alembic/versions/0096_cycle_foundation_a377a.py:379-388 | A row of either table that belongs to a cycle stops the downgrade with nothing changed |
| `CopyRules.ParameterIff` | backend/alembic/versions/0096_cycle_foundation_a377a.py:196-225 | A statement has a bind parameter exactly when a colon stands before a whole word, with no word, colon or backslash before it and no colon behind the word |
| `CopyRules.DistinctIff` | backend/alembic/versions/0096_cycle_foundation_a377a.py:393-395 | The restored UNIQUE holds exactly when no two rows have the same key without NULL |
| `CycleTables.UpgradedTable` | backend/alembic/versions/0096_cycle_foundation_a377a.py:161-230 | An upgraded table has the rebuilt definitions, one column more, and each old row, as unquoted names read it, with NULL in that column |
| `CycleTables.ReduceAccepts` | backend/alembic/versions/0096_cycle_foundation_a377a.py:293-376 | A downgrade of a table succeeds exactly when one definition names the column and none is the UNIQUE to restore, what is kept has no bind parameter, the replacement's name is free, no column was misread, another column is left, the names need no quotes, and no two rows as read agree on the restored UNIQUE; it leaves each row as read, without the dropped column |
| `CycleTables.TableThereAndBack` | backend/alembic/versions/0096_cycle_foundation_a377a.py:161-376 | The downgrade of a freshly upgraded table succeeds exactly when its replacement's name is free and no column was misread; it then restores the definitions, the restored UNIQUE never stands in the way, and every row is the original one exactly when the rows agree with the clock of the last copy |
| `CycleTables.TableUpAgain` | backend/alembic/versions/0096_cycle_foundation_a377a.py:161-376 | After a downgrade that succeeded, upgrading once more succeeds and gives the definitions and rows of a single upgrade at that time |
| `CycleTables.UpgradeAccepts` | backend/alembic/versions/0096_cycle_foundation_a377a.py:251-253 | The upgrade of both tables goes through exactly when each rebuild is allowed on its own, whatever the time |
| `CycleTables.MigrationThereAndBack` | backend/alembic/versions/0096_cycle_foundation_a377a.py:379-402 | The downgrade after an upgrade always passes its guard; it goes through exactly when both replacement names are free and no column of either table was misread, then restores both tables' definitions, leaves every other table alone, and restores each table's rows exactly when they agree with the clock of their last copy |
| `CycleTables.RowsComeBackAtAnyTime` | backend/alembic/versions/0096_cycle_foundation_a377a.py:379-402 | The rows come back whatever the time exactly when no table with rows has a column called CURRENT_DATE, CURRENT_TIME or CURRENT_TIMESTAMP |
| `ClockColumn.ClockOverwrites` | backend/alembic/versions/0096_cycle_foundation_a377a.py:212-225 | A table with a column CURRENT_DATE: the upgrade succeeds and the stored date is replaced by the current one |
| `CycleTables.DowngradeAccepts` | backend/alembic/versions/0096_cycle_foundation_a377a.py:379-402 | A downgrade of any database goes through exactly when no row belongs to a cycle and both tables can be reduced |
| `CycleTables.TableDowngradeLosesNothing` | backend/alembic/versions/0096_cycle_foundation_a377a.py:379-402 | A downgrade that passes its guard and its statements drops only NULLs: each old row as it was read is the new one with NULL in the dropped column, and nothing is lost exactly when the rows agree with the clock |
| `CycleTables.NoCycleRows` | backend/alembic/versions/0096_cycle_foundation_a377a.py:379-402 | The guard's query is empty exactly when every row has NULL in the cycle column |
| `ResumableSession.RequestWithRetry` | backend/app/backup_transport.py:569-591 | At most MAX_RETRIES + 1 status queries, whatever fails, each the client machine's next request; an answer returned is truthful about the session; a steady server is always understood |
| `ResumableSession.PutChunk` | backend/app/backup_transport.py:736-741 | The request is the client machine's next one, and its reply counts in the tally of rate limits |
| `ResumableSession.SendChunk` | backend/app/backup_transport.py:736-747 | A chunk sent from an offset the server has committed keeps the received bytes a prefix of the file; at most two rounds of status queries follow; the result is the machine's, and on a steady server it is a rate limit or tells how far the chunk got |
| `ResumableSession.AskAfterRefusal` | backend/app/backup_transport.py:766-781 | After a refused chunk the status answer ends the upload or moves the offset forward within the committed bytes while the count of refusals stays; the budget shrinks either way |
| `ResumableSession.UploadSession` | backend/app/backup_transport.py:729-786 | Against any server of the model: requests and result are those of the client machine, every chunk is the file's own bytes from within the committed prefix, requests are at most 400 * (size + 1), a success or a landed object means the remote object holds exactly the file; on a steady server the upload succeeds exactly when no more than MAX_RETRIES chunks are rate-limited without a 308 between |
| `UploadClient.LeadsToOne` | backend/app/backup_transport.py:729-786 | The exchanges determine the client: equal requests and replies lead to one state and one result |
| `UploadClient.ChunkEnds` | backend/app/backup_transport.py:748-786 | The answers to a chunk that end the upload, each with its result or error code |
| `UploadClient.ChunkAsks` | backend/app/backup_transport.py:739-781 | The replies to a chunk that are followed by a status query: a timeout, a transport error, a server fault, and a rate limit while attempts are left |
| `UploadClient.ReportMoves` | backend/app/backup_transport.py:753-777 | A 308 asks to go on after the last byte it names, or from the start; more than four reports in a row without progress end the upload; a report about a chunk resets the attempts |
| `UploadClient.StatusAnswers` | backend/app/backup_transport.py:569-591 | A status query is repeated up to four times; its answer stands for the chunk's own unless the chunk was refused |
| `UploadClient.TallyOn` | backend/app/backup_transport.py:753-769 | The tally of rate limits over two stretches of exchanges is the tally of the second from that of the first |
| `ResumableSession.ReportSpends` | backend/app/backup_transport.py:753-763 | Each 308 report spends from a budget of remaining bytes, no-progress rounds and attempts, ordered lexicographically by their weights |
| `ResumableSession.GrowingReportsStop` | backend/app/backup_transport.py:753-763 | Reports that never shrink end the loop within the budget |
| `ResumableSession.RewindingReportsNeverStop` | backend/app/backup_transport.py:756-757 | A server that takes one committed byte back again and again keeps the loop running for any number of turns |
| `UploadRules.VerifiesIff` | backend/app/backup_transport.py:640-653 | A remote copy is accepted exactly when its description has the expected name, type, folder, labels, size and MD5 and is not trashed |
| `DriveUpload.Destination.Reconcile` | backend/app/backup_transport.py:665-671 | No copy, exactly one copy that passed verification, or an error; more than one copy is always an error |
| `DriveUpload.Destination.MarkRemoteVerified` | backend/app/backup_transport.py:655-663 | Success means the object described is marked and still verifies |
| `DriveUpload.Destination.OpenSession` | backend/app/backup_transport.py:691-709 | Success exactly when the last reply is 200 or 201 with a location at a trusted host; at most MAX_RETRIES + 1 requests, repeated only after lost replies, server faults and rate limits; a success leaves a fresh session with the expected name, type, folder, properties and length |
| `DriveUpload.Destination.UploadLocked` | backend/app/backup_transport.py:677-727 | At most one object lands, only where there was no copy, and it is the file; success means the folder holds exactly one copy, whose every described attribute is written out; existing copies are adopted without any upload; when the folder answers, a call that used a session succeeds exactly when the upload landed and the replies said so or left it in doubt; on a steady server a valid file fails exactly on too many rate limits in a row |
| `DriveUpload.Destination.Conclude` | backend/app/backup_transport.py:710-727 | When the folder answers and holds one verifying copy, the call succeeds exactly after a success, a transport error, a timeout, an ambiguous result or an expired session; with no copy, or after any other error, it fails with the session's own error |
| `DriveUpload.Destination.ConfirmedIsTheFile` | backend/app/backup_transport.py:640-653 | Under a collision-free hash and truthful labels, a confirmed copy has the file's bytes |
| `DriveUpload.LandedCount` | backend/app/backup_transport.py:665-671 | When an object landed, it is the only match of its backup id |
| `UploadRuns.OneCopyIff` | backend/app/backup_transport.py:673-727 | In every run of calls, lost openings, exchanges, unasked landings and late landings at any moment, from an empty folder, there is at most one object of the id exactly when no given-up session lands beside another landing |
| `UploadRuns.SuccessMeans` | backend/app/backup_transport.py:710-727 | The copy a call listed before it succeeded is the file and stays there; on return it is the only one exactly when nothing landed since the listing, and only a session given up earlier can have, unless the listed copy came from one |
| `UploadRuns.CallIsRun` | backend/app/backup_transport.py:677-727 | What a call does to the server continues any run by steps of the system, none of them a late landing |
| `UploadRuns.TracedUploads` | backend/app/backup_transport.py:673-727 | Any number of calls and late landings on an empty folder: the client's methods produce a run, so there is at most one copy exactly when no late landing is beside another landing, and all labels are true |
| `UploadRuns.LateLandingReachable` | backend/app/backup_transport.py:684-720 | A run that ends with two copies: everything arrives, the reply and all status queries are lost, the next call finds no copy and uploads, and before it returns its success the given-up session lands |
| `UploadRuns.TwoNeedLate` | backend/app/backup_transport.py:673-727 | Whenever there are two objects, one of the landings was of a given-up session |
| `UploadRuns.StaysClosed` | backend/app/backup_transport.py:684-690 | Once a call's own session landed, no call lands another object for the rest of the run |
| `UploadRuns.EveryCopyIsFaithful` | backend/app/backup_transport.py:684-786 | In every state of every run each object is a whole file of some call under the labels of that file, whatever was lost or landed late |
| `DriveUpload.Destination.SerialisedUploads` | backend/app/backup_transport.py:673-727 | Over any number of lock-serialised uploads of one backup id, each failing anywhere, the folder holds at most one copy, plus one for each session that landed after it was given up; nothing is removed |
| `DriveUpload.Destination.Record` | backend/app/backup_transport.py:880-891 | The receipt after an upload: COMPLETE_OFF_VM only after a success, FAILED_OFF_VM otherwise, both in turn only when the first write raised after it took effect; a failed receipt after a verified upload still names the remote copy |
| `DriveUpload.Destination.UploadPackageLocked` | backend/app/backup_transport.py:857-891 | The receipt goes from UPLOADING to at most one final status, apart from a complete one followed by a failed one when writing it raised after it took effect; COMPLETE_OFF_VM is written only over a single confirmed copy of the envelope that was built; a differing envelope on disk stops before anything is written |
| `PackageUpload.InspectionGivesId` | backend/app/backup_transport.py:677-683 | The upload's check of the file gives the id of the manifest that inspection accepts it with |
| `PackageUpload.Pack` | backend/app/backup_transport.py:215-250 | Packing succeeds exactly for packages within the size limits, and gives the manifest and its envelope |
| `PackageUpload.UploadPackage` | backend/app/backup_transport.py:851-891 | Packing and uploading a directory: no package, no upload; COMPLETE_OFF_VM only over one confirmed copy of the package's own envelope; on a steady server a package the readers accept fails exactly on too many rate limits in a row |
| `PackageUpload.OffVmIsReadable` | backend/app/backup_transport.py:149-250 | A package that got off the VM is one the readers accept: its envelope extracts to exactly its files |
| `PackageUpload.OffVmIsThePackage` | backend/app/backup_transport.py:851-891 | With true labels and a collision-free hash, COMPLETE_OFF_VM means that the one object with the package's id is the package's envelope byte for byte and extracts to exactly its files |
| `UploadRules.InspectedIdIff` | backend/app/backup_transport.py:149-212 | A file is uploaded under an id exactly when it is a plain archive within the limit whose manifest is that of a complete local backup with this id and declares exactly its members, each agreeing with the last entry for it |
| `UploadRules.AcceptsIff` | backend/app/backup_transport.py:795-849 | A download takes exactly the bytes of the recorded size and MD5 and of the hash the caller gave or else the label's, of an object this program uploaded |
| `PackageUpload.DownloadTarget.Download` | backend/app/backup_transport.py:795-849 | A download leaves exactly the received bytes, and succeeds exactly when the description is of a managed object, the target is new, nothing breaks, and size and both hashes agree; the hash is the caller's when one is given, and else the object's label, and a size the caller gives has to be met |
| `PackageUpload.DownloadIsTheEnvelope` | backend/app/backup_transport.py:795-849 | A download of the confirmed copy accepts the package's envelope and no other bytes |
| `PackageUpload.ThereAndBack` | backend/app/backup_transport.py:851-891 | Backup, packing, upload, download, extraction and restore: when the receipt says COMPLETE_OFF_VM, whatever a download of the copy accepts restores to exactly the referenced paths with their original bytes |
| `DriveUpload.WorkDirectory.Write` | backend/app/backup_transport.py:338-352 | A receipt is replaced as a whole or not at all; the write may raise after it took effect |
| `Packages.EvidencePathInjective` | backend/app/data_protection.py:267 | Different encrypted file names have different paths in a package |
| `Packages.FilesOfAt` | backend/app/backup_transport.py:316-330 | In a list without repeated names every member's bytes are found under its name |
| `MemberOrder.SortSorts` | backend/app/backup_transport.py:146 | Sorting members of distinct names puts them in strict name order |
| `MemberOrder.SortedUnique` | backend/app/backup_transport.py:215-250 | Two strictly ordered member lists that stand for the same files are the same list |
| `Envelope.VerifiedEntries` | backend/app/backup_transport.py:123-134 | The loop over the evidence entries succeeds exactly when each names a plain `.age` file that is there with its size and hash |
| `Envelope.ValidatedLocalFiles` | backend/app/backup_transport.py:108-146 | Validation succeeds exactly when the directory holds only plain files, just those the manifest declares, each with its size and hash; the result is in name order |
| `Envelope.CreateEnvelope` | backend/app/backup_transport.py:215-250 | Building succeeds exactly for a complete, valid package that fits the size limit and a target that is not there; the envelope is the archive of the package's files in name order |
| `Envelope.ScanMembers` | backend/app/backup_transport.py:155-170 | The scan accepts exactly archives of distinct, safe, regular members within the size limit that have a manifest of at most 1 MiB |
| `Envelope.ReadManifest` | backend/app/backup_transport.py:171-193 | A manifest is accepted exactly when it declares a complete local backup and precisely the archive's members |
| `Envelope.InspectEnvelope` | backend/app/backup_transport.py:149-212 | Inspection accepts exactly what the `Inspects` conditions allow, and returns that manifest |
| `Envelope.Target.Extract` | backend/app/backup_transport.py:260-335 | On success the target holds exactly the declared members with their sizes and hashes; on any failure after its creation it is gone, or holds only what could not be removed, under names of members; an existing target is left alone; without write faults every acceptable archive is extracted |
| `Envelope.Target.ExtractMembers` | backend/app/backup_transport.py:273-331 | The members are written one by one, each under its own name, and checked again as a package |
| `Envelope.ExtractImpliesInspect` | backend/app/backup_transport.py:149-335 | Whatever extraction accepts, inspection accepts with the same manifest |
| `Envelope.InspectIsExtract` | backend/app/backup_transport.py:149-335 | Extraction accepts exactly what inspection accepts with archive metadata that is not null and with evidence entries for one file agreeing in size and hash |
| `Envelope.RepeatedEntryPassesInspection` | backend/app/backup_transport.py:189-207 | A manifest whose earlier entry for a file has a wrong hash passes inspection, and extraction rejects it |
| `Envelope.SilentArchivePassesInspection` | backend/app/backup_transport.py:196-197 | A manifest without archive metadata passes inspection with any archive bytes, and extraction rejects it |
| `Envelope.EnvelopeRoundTrip` | backend/app/backup_transport.py:215-335 | A built envelope is accepted by each reader exactly when the evidence names are distinct and plain and the manifest is at most 1 MiB; then with the package's manifest, and its members are exactly the package's files; otherwise no reader accepts it under any manifest |
| `MemberOrder.SortDistinct` | backend/app/backup_transport.py:146 | Sorting keeps names distinct exactly when they were |
| `Envelope.EnvelopeCanonical` | backend/app/backup_transport.py:857-872 | The envelope depends only on the set of files: any strictly ordered list of the same files gives the same bytes |
| `EnvelopeRules.BackupIdIff` | backend/app/backup_transport.py:89-105 | A backup id is accepted exactly when it is eight digits, `T`, six digits, `Z-` and 32 lower-case hexadecimal digits |
| `EnvelopeRules.SafeNameIff` | backend/app/backup_transport.py:253-257 | A member name is accepted exactly when it is relative, names something, never goes upwards and has no backslash or NUL |
| `EnvelopeRules.PackageIff` | backend/app/backup_transport.py:89-146 | A directory is a package exactly when it holds plain files only, a manifest of a complete local backup that was not uploaded, and the dump and evidence files it declares with their sizes and hashes, and nothing else |
| `EnvelopeRules.TotalSizeAdds` | backend/app/backup_transport.py:157-166 | The size counted against the limit is the sum of the members' sizes |
| `EnvelopeRules.EstimateIs` | backend/app/backup_transport.py:223 | The estimate: the files' sizes and 1024 bytes for each file and for two more |
| `EnvelopeRules.InspectedIff` | backend/app/backup_transport.py:149-212 | Inspection accepts exactly the archives of plain, distinct, safe members within the limits whose manifest declares just them, when the dump agrees with its metadata unless that is null and each evidence member agrees with the last entry that names it |
| `EnvelopeRules.ExtractedIff` | backend/app/backup_transport.py:260-335 | Extraction accepts exactly such archives when the dump and every evidence entry agree with their metadata |
| `EvidenceBackup.EvidenceRefs` | backend/app/data_protection.py:95-115 | The references of both tables are returned, in order, exactly when every row has a key, a 64-digit hash, a size that is not negative and a path that stays inside the root |
| `EvidenceBackup.ReadableIff` | backend/app/data_protection.py:95-115 | A row is accepted exactly when it has a key, a size that is not negative, a hash of 64 lower-case hexadecimal digits, and a prefixed path that is relative without `..` |
| `EvidenceBackup.RefsStayInside` | backend/app/data_protection.py:95-115 | A stored path read back has the parts it was made of: it is relative and has no `..` |
| `EvidenceBackup.RefNamesDistinct` | backend/app/data_protection.py:267 | Rows of distinct keys get distinct, plain file names across both tables |
| `EvidenceBackup.AllMatchIff` | backend/app/data_protection.py:118-145 | Every referenced file matches exactly when each row of the two tables has, at the parts of its prefixed key, a file of its size and hash |
| `EvidenceBackup.FailedWritten` | backend/app/data_protection.py:279-282 | A failure sets the status and the error code and keeps everything else that was recorded |
| `EvidenceBackup.StagingDirectory.CreateBackup` | backend/app/data_protection.py:218-283 | A backup succeeds exactly when no tool or connection fails, every reference is readable and every referenced file matches its row; the directory is then exactly the encrypted dump, the encrypted files and the complete manifest; on failure the manifest says FAILED with the error returned and what was recorded until then: the metadata of the dump, and the entries of the files before the first that is missing, not encrypted or different |
| `EvidenceBackup.StagingDirectory.EncryptEvidence` | backend/app/data_protection.py:266-273 | The loop encrypts the files in order and stops at the first that is missing, fails to encrypt or does not match |
| `EvidenceRestore.StartedWritten` | backend/app/data_protection.py:231-261 | The manifest when the dump starts, field by field |
| `EvidenceRestore.CompletedWritten` | backend/app/data_protection.py:263-277 | The complete manifest, field by field |
| `EvidenceRestore.EntryWritten` | backend/app/data_protection.py:267-273 | An evidence entry: the table, id, path, size and hash of its row, and the name, size and hash of its encrypted file |
| `EvidenceRestore.BackupIsPackage` | backend/app/data_protection.py:263-283 | What a backup leaves is a complete package with distinct, plain evidence names, so it can be enveloped |
| `EvidenceRestore.FailedIsNoPackage` | backend/app/data_protection.py:279-283 | A failed backup is never taken for a package |
| `EvidenceRestore.EvidenceRoot.RestoreIsolated` | backend/app/data_protection.py:373-408 | The restore succeeds exactly under the checks of the source, with every file verified before the first is decrypted; on success the one database it loads is sound, every row of its two evidence tables has a file of its size and digest at its prefixed key, and the root holds nothing else; on failure only the files written so far |
| `EvidenceRestore.EvidenceRoot.Validate` | backend/app/data_protection.py:323-369 | The final checks pass exactly when the database is sound and its rows, table by table and in order, are readable, are the manifest's entries field by field, and stand in the root with their size and digest |
| `EvidenceRestore.ValidIff` | backend/app/data_protection.py:323-369 | The same as a statement on values: a database that is not sound, an extra, missing or differing row, and a missing or differing file are each refused |
| `EvidenceRestore.RestoredRootIsRows` | backend/app/data_protection.py:373-408 | After an accepted restore the root is exactly what the rows of the restored database say |
| `RestoreRules.AcceptsIff` | backend/app/data_protection.py:373-408 | A package is restored exactly when its manifest is that of a complete backup at the expected revision, the dump and every encrypted file are there with the recorded size and hash, each opens to bytes of the size and hash of its entry, no entry's path runs through another's file, and the loaded database is sound and agrees with entries and files row by row |
| `RestoreRules.EntriesRestoreIff` | backend/app/data_protection.py:396-405 | The loop over the entries, which looks at the files written so far, accepts exactly a list whose files open as described and whose paths do not run through each other |
| `EvidenceRestore.SourceIsValid` | backend/app/data_protection.py:323-369 | The database the dump was taken of and the files it refers to pass the final checks |
| `EvidenceRestore.EvidenceRoot.RestoreEntries` | backend/app/data_protection.py:396-405 | The loop decrypts each entry to its path, and goes through exactly when every path is safe and free, every file decrypts, and every size and hash agrees |
| `EvidenceRestore.RestoredIsReferenced` | backend/app/data_protection.py:396-405 | When each entry decrypts to its referenced bytes, the restored files are exactly the referenced paths with those bytes |
| `EvidenceRestore.RestoreOfBackup` | backend/app/data_protection.py:373-408 | Restoring an intact backup with the matching key goes through, final checks included, and leaves exactly the referenced paths with their original bytes |
| `EvidenceRestore.EndToEnd` | backend/app/data_protection.py:218-408 | Backup, envelope, extraction and restore: for all readable rows whose files match them, the root ends up holding exactly the referenced paths with their original bytes |
| `EvidenceRestore.OnlyOriginalBytes` | backend/app/data_protection.py:396-405 | With a collision-free hash, a restore under the backup's own manifest that goes through leaves the original bytes, whatever replaced the encrypted files and whatever key is used |
| `GainEvents.SameSteps` | backend/alembic/versions/0098_cycle_closing_persistence_a377b2.py:32-136 | SQLite's search and PostgreSQL's lookup admit the same inserts from every stored table, and neither admits updates or deletes, with foreign keys enforced or not |
| `GainEvents.AdmittedIff` | backend/alembic/versions/0098_cycle_closing_persistence_a377b2.py:50-274 | Both dialects admit on a stored table exactly the insert of a sound row that is apart from every stored one and is an original or the full reversal of a stored original |
| `GainEvents.StoredIsSound` | backend/alembic/versions/0098_cycle_closing_persistence_a377b2.py:240-274 | The stored tables are exactly those of sound rows with pairwise different keys, sources and reversed events |
| `GainEvents.GuardsDiffer` | backend/alembic/versions/0098_cycle_closing_persistence_a377b2.py:50-128 | What PostgreSQL's trigger rejects SQLite's rejects; the exact condition for the converse to fail: a reversal of a stored original with a null compared column and no other mismatch, which NOT NULL rejects |
| `GainEvents.GuardsDifferOnNull` | backend/alembic/versions/0098_cycle_closing_persistence_a377b2.py:107-128 | The two triggers alone differ on a null amount, which the NOT NULL column rejects in both |
| `GainEvents.StepKeeps` | backend/alembic/versions/0098_cycle_closing_persistence_a377b2.py:50-67 | Every admitted step appends, and keeps that each reversal fully compensates an earlier original that has no other reversal |
| `GainEvents.BalanceIsOutstanding` | backend/alembic/versions/0098_cycle_closing_persistence_a377b2.py:50-67 | For every cycle, kind and cutoff: originals less reversals realized by the cutoff equal the sum of originals not reversed by then, and are never negative |
| `GainEvents.RunBalance` | backend/alembic/versions/0098_cycle_closing_persistence_a377b2.py:240-274 | The same in every state of every run, in both dialects; events are only ever added |
| `GainEvents.CanReverse` | backend/alembic/versions/0098_cycle_closing_persistence_a377b2.py:50-67 | Any original without a reversal can be reversed by a full counter-event, which lowers the balance by exactly its amount |
| `GainEvents.GainEventTable.Execute` | backend/alembic/versions/0098_cycle_closing_persistence_a377b2.py:50-136 | A statement takes effect exactly when it is admitted, and otherwise changes nothing; the invariant is kept and no row goes away |
| `AnnualClosing.SameSteps` | backend/alembic/versions/0099_cycle_closing_review_a377b3r1.py:97-198 | With foreign keys enforced the two dialects admit the same steps from every state that keeps the invariant: where SQLite's trigger does not look, foreign keys on the closing's id and cycle reject what PostgreSQL's trigger rejects |
| `ClosingAdmission.AdmittedIff` | backend/alembic/versions/0099_cycle_closing_review_a377b3r1.py:40-198 | What each dialect admits on the closing tables, statement by statement, in terms of the rows' own columns: link, status, equations, hashes, keys, and what names what |
| `ClosingAdmission.SnapshotsStoredIff` | backend/alembic/versions/0098_cycle_closing_persistence_a377b2.py:194-232 | Stored snapshots are exactly those that are non-negative, add up, have a 64-character hash, and differ in closing, cycle and hash |
| `ClosingAdmission.ReviewsStoredIff` | backend/alembic/versions/0099_cycle_closing_review_a377b3r1.py:37-81 | Stored reviews are exactly those that passed their gates, add up, have four 64-character hashes, and differ in version and hash within a closing |
| `ClosingAdmission.ObligationsStoredIff` | backend/alembic/versions/0100_cycle_payout_obligations_a377b4r1.py:116-145 | Stored obligations are exactly those with an amount that is not negative, a 64-character hash, and no other obligation of the member or participation under the snapshot |
| `ClosingAdmission.ObligationWasOwed` | backend/alembic/versions/0100_cycle_payout_obligations_a377b4r1.py:13-113 | In every run of every dialect, each stored obligation was inserted when its closing was CLOSED, its snapshot had its closing, cycle and hash, and a participation row had exactly its participation id, member and cycle |
| `AnnualClosing.WithoutForeignKeys` | backend/alembic/versions/0099_cycle_closing_review_a377b3r1.py:97-198 | Without enforced foreign keys, as the program's SQLite connections run, PostgreSQL rejects exactly those admitted steps that move or delete a closing named elsewhere or add a row that names a missing one |
| `AnnualClosing.LinkLostWithoutForeignKeys` | backend/alembic/versions/0099_cycle_closing_review_a377b3r1.py:103-116 | Two runs of such SQLite from empty tables: a set link's closing moves to a cycle its review is not of, or is deleted |
| `AnnualClosing.LinksHoldIff` | backend/alembic/versions/0099_cycle_closing_review_a377b3r1.py:97-116 | In every run of every dialect, set links stay and name a review of their own closing and cycle at every moment exactly when no step moves or deletes a closing whose link is set |
| `AnnualClosing.StepGrows` | backend/alembic/versions/0099_cycle_closing_review_a377b3r1.py:118-198 | In every dialect, every admitted step only adds snapshots, cash evidence, reviews and obligations, and keeps that obligations carry their snapshot's hash |
| `AnnualClosing.HistoryGrows` | backend/alembic/versions/0099_cycle_closing_review_a377b3r1.py:118-198 | In every dialect, between any two moments of a run these rows are all still there unchanged |
| `AnnualClosing.TriggersDiffer` | backend/alembic/versions/0099_cycle_closing_review_a377b3r1.py:103-163 | The triggers alone differ, on a statement that moves a linked closing to another cycle |
| `AnnualClosing.StepKeeps` | backend/alembic/versions/0099_cycle_closing_review_a377b3r1.py:97-198 | With enforced foreign keys every admitted step keeps that links name reviews of the same closing and cycle, and that set links stay |
| `AnnualClosing.LinkIsFinal` | backend/alembic/versions/0099_cycle_closing_review_a377b3r1.py:97-116 | With enforced foreign keys an approved-review link once set never changes in any run, and its closing is never deleted or moved |
| `AnnualClosing.LinkNamesReview` | backend/alembic/versions/0099_cycle_closing_review_a377b3r1.py:67-80 | With enforced foreign keys the link always names a stored review of the same closing and cycle with zero difference and required liquidity equal to liability plus fee, and that review never changes |
| `AnnualClosing.ObligationForever` | backend/alembic/versions/0100_cycle_payout_obligations_a377b4r1.py:13-56 | In every dialect an obligation never changes, and always carries the payload hash of the one snapshot it names, whose gross result is fee plus distributable result |
| `AnnualClosing.OneObligation` | backend/alembic/versions/0100_cycle_payout_obligations_a377b4r1.py:144-145 | A snapshot gives each member and each participation at most one obligation |
| `AnnualClosing.CanApprove` | backend/alembic/versions/0099_cycle_closing_review_a377b3r1.py:103-116 | A closing without a link can be linked to any stored review of its own closing and cycle |
| `AnnualClosing.ClosingStore.Execute` | backend/alembic/versions/0100_cycle_payout_obligations_a377b4r1.py:13-113 | A statement on the closing tables takes effect exactly when it is admitted, and otherwise changes nothing; immutable rows are kept in every dialect, links when foreign keys are enforced |
| `PayoutDestinations.GuardsDiffer` | backend/alembic/versions/0101_member_payout_destination_a377b4r2.py:24-109 | PostgreSQL's update guard rejects whatever SQLite's rejects; the exact condition for the converse to fail: a revocation in which a status is null |
| `PayoutDestinations.GuardsDifferWitness` | backend/alembic/versions/0101_member_payout_destination_a377b4r2.py:24-109 | A revocation that forgets the status separates the two guards, and the NOT NULL column rejects it |
| `PayoutDestinations.SameSteps` | backend/alembic/versions/0101_member_payout_destination_a377b4r2.py:13-117 | From every stored table the two dialects admit the same steps, with foreign keys enforced or not |
| `PayoutDestinations.AdmittedIff` | backend/alembic/versions/0101_member_payout_destination_a377b4r2.py:13-176 | Both dialects admit on a stored table exactly the insert of a sound unverified destination apart from the stored ones, leaving a row as it is, and revoking an active one |
| `PayoutDestinations.StoredIsSound` | backend/alembic/versions/0101_member_payout_destination_a377b4r2.py:120-176 | The stored tables are exactly those whose statuses go with their four lifecycle columns, with different versions and at most one active row per member |
| `PayoutDestinations.StepKeeps` | backend/alembic/versions/0101_member_payout_destination_a377b4r2.py:13-117 | Every admitted step keeps that no row is verified, and each old row stays as it is or gets its revocation |
| `PayoutDestinations.NeverVerified` | backend/alembic/versions/0101_member_payout_destination_a377b4r2.py:13-60 | In every run from the empty table each row is UNVERIFIED or REVOKED |
| `PayoutDestinations.OneActive` | backend/alembic/versions/0101_member_payout_destination_a377b4r2.py:171-176 | Each member has at most one destination that is not revoked |
| `PayoutDestinations.HistoryGrows` | backend/alembic/versions/0101_member_payout_destination_a377b4r2.py:24-60 | Between any two moments of a run no row goes away, no identity column changes, and a row stays or is revoked |
| `PayoutDestinations.RevokedForever` | backend/alembic/versions/0101_member_payout_destination_a377b4r2.py:24-60 | Revocation is permanent: the row never changes again |
| `PayoutDestinations.CanReplace` | backend/alembic/versions/0101_member_payout_destination_a377b4r2.py:13-53 | An active destination can be revoked, and then a new version can take its place |
| `PayoutDestinations.DestinationTable.Execute` | backend/alembic/versions/0101_member_payout_destination_a377b4r2.py:13-117 | A statement takes effect exactly when it is admitted, and otherwise changes nothing; the history is kept |
| `Verification.EvidenceGuardsAgree` | backend/alembic/versions/0102_payout_verification_evidence_a377b4r3.py:83-98 | Looking up the attempt's state by key and searching all open attempts reject the same evidence rows |
| `Verification.UpdateGuardsAgree` | backend/alembic/versions/0102_payout_verification_evidence_a377b4r3.py:38-75 | SQLite's one condition and PostgreSQL's sequence of statements reject the same updates of attempts, null columns included |
| `Verification.LookupDiffersWithoutKey` | backend/alembic/versions/0102_payout_verification_evidence_a377b4r3.py:184-209 | Without the primary key the two evidence guards would differ |
| `Verification.SameSteps` | backend/alembic/versions/0102_payout_verification_evidence_a377b4r3.py:23-214 | From every stored state of the three tables the two dialects admit the same steps when foreign keys are enforced, and from every state that keeps the invariant also when they are not |
| `VerificationAdmission.AdmittedIff` | backend/alembic/versions/0102_payout_verification_evidence_a377b4r3.py:23-214 | Both dialects admit from every state of a run exactly: destination steps, a request on a stored unverified destination, an attempt that stays or moves forward to a state it has evidence for, and evidence for an open attempt without a final one |
| `VerificationAdmission.AttemptsStoredIff` | backend/alembic/versions/0102_payout_verification_evidence_a377b4r3.py:217-246 | Stored attempts are exactly sound ones with different keys and at most one open attempt per destination |
| `VerificationAdmission.EvidenceStoredIff` | backend/alembic/versions/0102_payout_verification_evidence_a377b4r3.py:247-300 | Stored evidence is exactly sound rows whose outcome goes with their result and whose method goes with their authenticity, with different sequence numbers and digests and one final result per attempt |
| `Verification.StepKeepsReferences` | backend/alembic/versions/0102_payout_verification_evidence_a377b4r3.py:23-112 | The guards alone keep the references between the three tables |
| `Verification.StepKeeps` | backend/alembic/versions/0102_payout_verification_evidence_a377b4r3.py:23-112 | Every admitted step keeps that attempts match their destinations, that a state has its evidence, and that final evidence is the last of its attempt |
| `Verification.HistoryGrows` | backend/alembic/versions/0102_payout_verification_evidence_a377b4r3.py:38-112 | Between any two moments of a run attempts keep their identity and only move forward, and evidence is only added |
| `Verification.FinalHasOne` | backend/alembic/versions/0102_payout_verification_evidence_a377b4r3.py:290-296 | A FINAL attempt has exactly one FINAL evidence row, and it is the attempt's last |
| `Verification.FinalIsClosed` | backend/alembic/versions/0102_payout_verification_evidence_a377b4r3.py:83-112 | Nothing is added to an attempt that has FINAL evidence, and a FINAL attempt never changes again |
| `Verification.OneOpen` | backend/alembic/versions/0102_payout_verification_evidence_a377b4r3.py:242-246 | Each destination has at most one open attempt |
| `Verification.StillBound` | backend/alembic/versions/0102_payout_verification_evidence_a377b4r3.py:23-37 | At every moment an attempt's destination id, version and key type are those of exactly one destination row |
| `Verification.CanRequest` | backend/alembic/versions/0102_payout_verification_evidence_a377b4r3.py:23-37 | An unverified destination without an open attempt can get one |
| `Verification.CanFinish` | backend/alembic/versions/0102_payout_verification_evidence_a377b4r3.py:38-98 | An open attempt can be given FINAL evidence, and can then be closed |
| `Verification.VerificationStore.Execute` | backend/alembic/versions/0102_payout_verification_evidence_a377b4r3.py:23-214 | A statement takes effect exactly when it is admitted, and otherwise changes nothing; the invariant and the history are kept |
| `LedgerChain.Ledger.Upgrade` | backend/alembic/versions/0013_ledger_hardening_v035.py:22-27 | The loop that threads the previous hash and updates rows by id leaves every row with the hash of its own chain prefix |
| `LedgerChain.TailPinsChain` | backend/alembic/versions/0013_ledger_hardening_v035.py:13-27 | With a collision-free hash two chains end in the same hash exactly when they have the same length and agree row by row in account, direction, reference type and id, reversal, creation time, and the sign and cents of the amount |
| `LedgerChain.ChainedLedgersAgree` | backend/alembic/versions/0013_ledger_hardening_v035.py:13-27 | For two migrated ledgers, equal last hashes mean equal hashed fields and equal hashes in every row |
| `LedgerChain.HashesDistinct` | backend/alembic/versions/0013_ledger_hardening_v035.py:29-33 | The entry hashes of a chain are all different, so the unique constraint on them can be added |
| `LedgerChain.ChainRecomputes` | backend/alembic/versions/0013_ledger_hardening_v035.py:22-27 | Each row's hash is that of its own account, direction, quantized amount, reference, reversal and creation time with the hash stored in the row before, so the chain can be checked from the table alone; no other column changes |
| `LedgerChain.IdsNotHashed` | backend/alembic/versions/0013_ledger_hardening_v035.py:13-16 | Renumbering rows does not change the last hash |
| `LedgerChain.QuantizeIs` | backend/alembic/versions/0013_ledger_hardening_v035.py:14 | The hashed amount has the amount's own sign and exactly the nearest cents, ties to the even cent |
| `LedgerChain.QuantizeNearest` | backend/alembic/versions/0013_ledger_hardening_v035.py:14 | The hashed amount is the nearest cent, ties to the even cent |
| `LedgerChain.WholeCentsExact` | backend/alembic/versions/0013_ledger_hardening_v035.py:14 | Amounts of whole cents are hashed exactly: different amounts are hashed differently |

## Left out

- OAuth, tokens, file permissions, symbolic-link races, `fsync`, the lock file and command-line parsing: the lock is mutual exclusion (uploads are serialised), an atomic replace is one step that may raise after it took effect.
- Byte layout of the archive, JSON text, hash algorithms and `age`: parameters with the laws named above; each envelope is one sequence of members with a name, a kind and bytes. A collision-free hash is an idealisation.
- Sizes and numbers in JSON that are not integers.
- The retries inside listing and marking are one step with any outcome; those of opening a session and of media requests are modelled one by one.
- A session opened by a request whose reply was lost cannot be addressed by the client; such a session receives nothing and is not tracked.
- Servers that take committed bytes back, apart from the lemma on such servers.
- The header of a status query: the source writes `*/size` without the unit that section 14.4 of RFC 9110 asks for; the provider's protocol is taken as it is.
- ResumableSession.UploadSession: five rate limits of chunks with no chunk answered 308 between them end the upload, because the source resets its attempt count at such a 308 and nowhere else; a status answer after a refusal does not reset it.
- DriveUpload.Destination.SerialisedUploads: given-up sessions land between calls here; landings in the middle of a call are steps of the system in `UploadRuns`, where `UploadRuns.OneCopyIff` and `UploadRuns.SuccessMeans` say what holds then.
- DriveUpload.Destination.UploadLocked: speaks of calls during which no given-up session lands; `UploadRuns.SuccessMeans` is the other case.
- UploadRuns.OneCopyIff: the runs start from an empty folder and one backup id; calls that adopt an existing copy exchange no media requests and are no step; an object is not removed from the folder by anyone else.
- Listing all backups and the retention report.
- Envelope.Target.Extract: `rmtree` ignores its own errors, so a failed extraction may leave files, among them a partly written one; their contents are not described, only their names.
- EvidenceBackup.StagingDirectory.CreateBackup: failures of the database, the dump and each encryption are modelled, but not which code and which versions a failed connection, query or version check leaves, nor the code for a path that is no file; failures of writing the manifest itself, after which it stays IN_PROGRESS, and the checks before the directory is made are not.
- EvidenceRestore.EvidenceRoot.RestoreIsolated: a decryption that fails writes nothing; the environment checks before a restore are not modelled.
- EvidenceRestore.EvidenceRoot.Validate: the checks of the restored head, ledger sequence and trigger, and of the ledger and evidence chains are one flag of the restored database.
- `pg_dump` and `pg_restore`: the dump is bytes, and the restored database is a function of them.
- CycleTables.MigrationThereAndBack: rows are values by column name and compared as values; column types, defaults, collations, other constraints on rows, and the indexes and triggers that the rebuild puts back are not modelled, nor are indexes and views that share a replacement's name, views and triggers of other tables that name the dropped table and stop its successor's renaming, or generated columns, which the copy leaves out. Such a constraint on a column called CURRENT_DATE, CURRENT_TIME or CURRENT_TIMESTAMP can also stop a copy.
- CycleTables.ReplaceAccepts: CREATE TABLE fails here for a constraint before a column, equal column names or no column; that it also fails for a constraint that names no column of the table is not modelled. No transaction encloses the statements, so what ran before a failure stays.
- SqlText.BuiltParameter: `sa.text` also drops the backslash of `\:`, which changes the stored text of a definition that has one; characters beyond ASCII are word characters.
- SqlTokens.ClassifierAgrees: comments inside a definition are not modelled, and white space beyond ASCII is white space for SQLite too.
- Regular expressions of revision 0096 are predicates on strings, with case folding of ASCII letters only; table names that end in white space, a quote or a bracket are excluded where a replacement name is formed.
- The data part of revision 0096 (the `cycles` table, its first row, the new indexes) and its PostgreSQL branch.
- Symbolic links below the evidence root: every path that meets one is rejected by the source, and by the model as a path with no file.
- Columns no guard or check reads (users, audit timestamps, payload texts, provider identifiers), VARCHAR lengths and numeric precision; amounts are whole cents and instants are integers.
- Foreign keys to `members`, `users`, `cycles` and uploaded files; those among the modelled tables are enforced by PostgreSQL and by `Sqlite(true)`, and not by `Sqlite(false)`, which is how the program's own SQLite connections run.
- `INSERT OR REPLACE` in SQLite deletes conflicting rows without firing delete triggers while `recursive_triggers` is off: steps are plain INSERT, UPDATE and DELETE statements, and the growth of histories and the `SameSteps` lemmas speak of those only.
- Statements on several rows at once are sequences of one-row steps; concurrent transactions are serialised.
- Reversals in the ledger: no uniqueness is claimed, because a later revision drops that index; PostgreSQL's append-only trigger on the ledger and the later ledger service are not modelled.
- The settlement, late-charge and scheduler tables, whose rows have CHECKs on single rows and no protocol between rows, and the API routers, which translate requests into calls of services.
