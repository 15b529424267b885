# Redirect store of the redirect generator

This project models the redirect store of a small extension for a content
management system: the `RedirectRepository` class, which adds redirects to
the host platform's `sys_redirect` table. It models three operations:

- **Lookup** (`getRedirect`). A stored row matches a source URL when two things hold:
  - its `source_path` equals the URL's path with query;
  - its `source_host` is the wildcard `*` or equals the URL's host.
- **Add** (`addRedirect` with `updateExistingRow`). The duplicate check runs
  first, then the dry-run check. The call ends in one of five outcomes:
  - the existing row is overwritten;
  - a conflicting duplicate is rejected;
  - a duplicate with the same target is reported;
  - nothing happens because of dry run;
  - a new row is inserted.
- **Listing** (`getAllRedirects`). It returns the whole table.

The source reports three of the outcomes by throwing exceptions:
`OverwrittenDuplicateException` (code 1695904053), and
`ConflictingDuplicateException` and `NonConflictingDuplicateException`, which
share code 1568487151. Here those outcomes are values of the `Outcome`
datatype, and `ExceptionCode` gives each one its code.

Files:

- `wrappers.dfy`: the `Option` datatype.
- `repository.dfy`: module `Repository`, which holds:
  - the row, configuration and URL datatypes;
  - `FirstMatch` and `Lookup`;
  - the decision procedure `Add`, as a function on a table value;
  - the table invariant `WellFormed`, meaning uids are distinct and below the auto-increment counter;
  - the class `RedirectRepository`. Its fields `rows` and `nextUid` are updated in place by `AddRedirect` and `UpdateExistingRow`, `AddRedirect` is proved to follow `Add`, and `UpdateExistingRow` is proved to follow `UpdateByUid`.
- `repository_properties.dfy`: module `RepositoryProperties`, holding the
  properties of `Add` as lemmas and a client session whose outcomes are proved.

Modelling choices:

- URL parsing is not part of this model (`UrlInfo` is not among the modelled files). Callers pass the host and the path with query, already split, as a `UrlInfo` value.
- The request time (`EXEC_TIME`) is the parameter `now`.
- The database assigns `uid` on insert. It is modelled as the counter `nextUid`.
- When several rows match, the query takes whichever row the database returns first. The model takes the first match in storage order.
- Inserts store the host as `getHost() ?: '*'`. PHP's `?:` tests truthiness, so both the empty host and the host `"0"` are stored as `*`. The model keeps this (`StoredHost`).
- An update writes to every row with the matched `uid`, just as the SQL `UPDATE ... WHERE uid = ?` does. Under `WellFormed`, that is only the matched row.

Consequences of the order of checks in `addRedirect`:

- A duplicate is reported even under dry run. The duplicate check (lines 55-100) runs before the dry-run check (line 102).
- A dry-run overwrite is still reported as `Overwritten`. `updateExistingRow` returns before writing (lines 149-151), and the outcome is raised afterwards (line 62).

## Model

| member | source | states |
|---|---|---|
| `Repository.FirstMatch` | Classes/Repository/RedirectRepository.php:27-37 | returns the index of a row whose path equals the URL's path with query and whose host is `*` or the URL's host, with no matching row before it; returns none exactly when no row matches |
| `Repository.Lookup` | Classes/Repository/RedirectRepository.php:21-43 | returns a matching row stored at some position with no matching row before it; returns none (the source's `null`) exactly when no row satisfies both conditions |
| `Repository.RedirectRepository.GetRedirect` | Classes/Repository/RedirectRepository.php:21-43 | the row returned is in the table and matches the URL; none is returned exactly when no stored row matches |
| `Repository.RedirectRepository.GetAllRedirects` | Classes/Repository/RedirectRepository.php:126-135 | returns exactly the current rows, in storage order |
| `Repository.ExceptionCode` | Classes/Repository/RedirectRepository.php:62-98 | insert and dry-run no-op throw nothing; an overwrite carries 1695904053; both duplicate kinds carry 1568487151 |
| `Repository.Matches` | Classes/Repository/RedirectRepository.php:29-35 | definition of the WHERE clause: same path with query, and host `*` or the URL's host; its properties are stated in `FirstMatch` and `Lookup` |
| `Repository.StoredHost` | Classes/Repository/RedirectRepository.php:119 | a PHP-falsy host (`""` or `"0"`) is stored as the wildcard `*`, and any other host is stored unchanged |
| `Repository.NewRow` | Classes/Repository/RedirectRepository.php:109-122 | the inserted row satisfies the lookup condition for the URL it was built from; its columns are stated in `NoMatchInsertsOneRow` |
| `Repository.Overwrite` | Classes/Repository/RedirectRepository.php:155-164 | the rewritten row keeps its uid, `createdon` and creation type, and matches exactly the URLs the original row matched; its new columns are stated in `UpdateByUid` |
| `Repository.UpdateByUid` | Classes/Repository/RedirectRepository.php:155-166 | the update keeps the row count and leaves every row with another uid equal. Each row with the given uid keeps its uid, `createdon`, host, path and creation type. Its `updatedon` becomes `now`, and its target, status code and five flags (as 1 or 0) take the new values |
| `Repository.Add` | Classes/Repository/RedirectRepository.php:53-124 | definition of the decision procedure, checks in the source's order; its properties are stated in the `RepositoryProperties` lemmas and `AddKeepsWellFormed` |
| `Repository.UpdateKeepsWellFormed` | Classes/Repository/RedirectRepository.php:155-166 | an update by uid keeps uids distinct and below the counter |
| `Repository.InsertKeepsWellFormed` | Classes/Repository/RedirectRepository.php:109-123 | appending a row with the next auto-increment uid keeps uids distinct and below the counter |
| `Repository.AddKeepsWellFormed` | Classes/Repository/RedirectRepository.php:53-124 | every outcome of adding a redirect leaves a well-formed table well formed |
| `Repository.RedirectRepository.AddRedirect` | Classes/Repository/RedirectRepository.php:53-124 | the method returns the outcome `Add` decides and leaves the table `Add` describes, keeping the table invariant |
| `Repository.RedirectRepository.UpdateExistingRow` | Classes/Repository/RedirectRepository.php:143-167 | under dry run the rows are unchanged; otherwise the rows become the update by the existing row's uid; the counter is unchanged |
| `RepositoryProperties.NewRowMatches` | Classes/Repository/RedirectRepository.php:30-34 | the host and path stored on insert satisfy the lookup condition for the same URL |
| `RepositoryProperties.LookupAfterAppend` | Classes/Repository/RedirectRepository.php:27-37 | when no row matches, appending a matching row makes that row the lookup result |
| `RepositoryProperties.NoMatchDryRunIsNoop` | Classes/Repository/RedirectRepository.php:55-56 | with no match under dry run, the outcome is the dry-run no-op and the table is unchanged (checks at lines 55-56 and 102-104) |
| `RepositoryProperties.NoMatchInsertsOneRow` | Classes/Repository/RedirectRepository.php:106-123 | with no match and no dry run, exactly one row is appended and the old rows are kept. The new row has a fresh uid, host `*` for a falsy host and the URL's host otherwise, the path with query, and the target and status code given. It also has creation type 6332, `createdon` and `updatedon` equal to `now`, and each flag stored as 1 or 0. The outcome throws nothing |
| `RepositoryProperties.InsertThenLookupFindsIt` | Classes/Repository/RedirectRepository.php:119-123 | after an insert, lookup of the same URL returns the inserted row |
| `RepositoryProperties.OverwriteRewritesOnlyMatchedRow` | Classes/Repository/RedirectRepository.php:57-73 | with a match, overwrite set and no dry run, the outcome is `Overwritten` with code 1695904053 and the row count is kept. Only the matched row changes: its `updatedon`, five flags, status code and target take the new values. Its uid, `createdon`, host, path and creation type are kept (update at lines 153-166) |
| `RepositoryProperties.OverwriteThenLookupFindsIt` | Classes/Repository/RedirectRepository.php:155-166 | after an overwrite, lookup of the same URL returns the rewritten row |
| `RepositoryProperties.OverwriteUnderDryRunKeepsTable` | Classes/Repository/RedirectRepository.php:57-62 | with a match and overwrite set under dry run, the table is unchanged but the outcome is still `Overwritten` (early return at lines 149-151) |
| `RepositoryProperties.DuplicateWithoutOverwrite` | Classes/Repository/RedirectRepository.php:76-98 | with a match and no overwrite, the outcome is `Conflicting` exactly when the targets differ and `NonConflicting` exactly when they are equal. Both carry code 1568487151 and the table is unchanged, with or without dry run |
| `RepositoryProperties.DryRunNeverChangesTable` | Classes/Repository/RedirectRepository.php:102-104 | under dry run the table is unchanged in every branch (together with lines 149-151) |
| `RepositoryProperties.RowCountGrowsOnlyOnInsert` | Classes/Repository/RedirectRepository.php:123 | the row count grows by one when the outcome is an insert and is kept otherwise; the outcome is an insert exactly when nothing matched and dry run is off |
| `RepositoryProperties.RepeatedAddIsDuplicate` | Classes/Repository/RedirectRepository.php:55-98 | after an insert, adding the same source again without overwrite returns `NonConflicting` for the same target and `Conflicting` for another target, naming the inserted row's uid, and changes nothing |
| `RepositoryProperties.ExampleSession` | Classes/Repository/RedirectRepository.php:53-124 | on an empty table: the first add inserts, repeating it is non-conflicting, another target conflicts, and overwrite replaces the target while keeping uid and `createdon`; the listing then holds that one row |

## Left out

- The command-line command (`Classes/Command/AddRedirectCommand.php`) is left out. It parses arguments, resolves the target through an external URL matcher, prints output and always exits 0. At that level, dry run skips the repository call entirely.
- Extension metadata (`ext_emconf.php`) is left out.
- The database layer is replaced by an in-memory sequence of rows. This covers the connection pool, query builder, SQL collation and comparison rules, and the driver. The host framework's default query restrictions are not modelled: they hide deleted or disabled rows from both queries, whereas every row in the model is live.
- URL parsing (`UrlInfo`) is not part of this model, and neither is the status-code allow-list (`Configuration`). Parsed host and path with query, and an already-built configuration, are inputs.
- The raw URL string is not modelled. Apart from parsing, the source uses it only in exception message text.
- The exception message text is left out. Outcomes carry the uid, the targets and, through `ExceptionCode`, the numeric codes.
- Concurrency is left out. The gap between the lookup and the insert or update is not modelled in this sequential model.
- Repository.RedirectRepository.GetAllRedirects: returns the rows as `Row` records rather than the associative arrays of all columns that the driver returns.
