/**
 * What `addRedirect` promises, proved about the decision procedure `Add`
 * that the repository's `AddRedirect` method is proved to follow.
 */
module RepositoryProperties {

  import opened Wrappers
  import opened Repository

  /** The row inserted for a URL satisfies the lookup condition for that URL. */
  lemma NewRowMatches(uid: nat, url: UrlInfo, target: string, config: Configuration, now: int)
    ensures Matches(NewRow(uid, url, target, config, now), url)
  {
  }

  /** Appending a matching row to rows with no match makes it the lookup result. */
  lemma LookupAfterAppend(rows: seq<Row>, row: Row, url: UrlInfo)
    requires Lookup(rows, url).None?
    requires Matches(row, url)
    ensures Lookup(rows + [row], url) == Some(row)
  {
    var all := rows + [row];
    assert all[|rows|] == row;
    var k := FirstMatch(all, url);
    assert k.Some?;
  }

  /** No match and dry run: nothing is written and the outcome says so. */
  lemma NoMatchDryRunIsNoop(t: Table, url: UrlInfo, target: string, config: Configuration, now: int)
    requires Lookup(t.rows, url).None?
    ensures Add(t, url, target, config, true, now) == Step(DryRunNoop, t)
  {
  }

  /**
   * No match and no dry run: exactly one row is appended, the existing rows
   * are kept, and the new row carries the URL, the target, the options and
   * the clock value.
   */
  lemma NoMatchInsertsOneRow(t: Table, url: UrlInfo, target: string, config: Configuration, now: int)
    requires WellFormed(t)
    requires Lookup(t.rows, url).None?
    ensures var step := Add(t, url, target, config, false, now);
      && step.outcome == Inserted
      && ExceptionCode(step.outcome).None?
      && |step.after.rows| == |t.rows| + 1
      && step.after.rows[..|t.rows|] == t.rows
      && var r := step.after.rows[|t.rows|];
      && r.uid == t.nextUid
      && (forall i :: 0 <= i < |t.rows| ==> t.rows[i].uid != r.uid)
      && r.sourceHost == (if url.host == "" || url.host == "0" then "*" else url.host)
      && r.sourcePath == url.pathWithQuery
      && r.target == target
      && r.targetStatusCode == config.targetStatusCode
      && r.creationType == 6332
      && r.createdon == now && r.updatedon == now
      && r.keepQueryParameters == (if config.keepQueryParameters then 1 else 0)
      && r.isRegexp == (if config.regexp then 1 else 0)
      && r.forceHttps == (if config.forceHttps then 1 else 0)
      && r.disableHitcount == (if config.disableHitCount then 1 else 0)
      && r.respectQueryParameters == (if config.respectQueryParameters then 1 else 0)
  {
  }

  /** Round trip: after an insert, `getRedirect` for the same URL finds the new row. */
  lemma InsertThenLookupFindsIt(t: Table, url: UrlInfo, target: string, config: Configuration, now: int)
    requires Lookup(t.rows, url).None?
    ensures var after := Add(t, url, target, config, false, now).after;
      Lookup(after.rows, url) == Some(NewRow(t.nextUid, url, target, config, now))
  {
    NewRowMatches(t.nextUid, url, target, config, now);
    LookupAfterAppend(t.rows, NewRow(t.nextUid, url, target, config, now), url);
  }

  /**
   * A match with overwrite and no dry run: only the matched row changes; its
   * mutable columns take the new values and its identity, creation time,
   * source and creation type are kept.
   */
  lemma OverwriteRewritesOnlyMatchedRow(t: Table, url: UrlInfo, target: string, config: Configuration, now: int, k: nat)
    requires WellFormed(t)
    requires FirstMatch(t.rows, url) == Some(k)
    requires config.overwriteExisting
    ensures var step := Add(t, url, target, config, false, now);
      var matched := t.rows[k];
      && step.outcome == Overwritten(matched.uid, matched.target, target)
      && ExceptionCode(step.outcome) == Some(1695904053)
      && step.after.nextUid == t.nextUid
      && |step.after.rows| == |t.rows|
      && (forall j :: 0 <= j < |t.rows| && j != k ==> step.after.rows[j] == t.rows[j])
      && var r := step.after.rows[k];
      && r.uid == matched.uid && r.createdon == matched.createdon
      && r.sourceHost == matched.sourceHost && r.sourcePath == matched.sourcePath
      && r.creationType == matched.creationType
      && r.updatedon == now
      && r.target == target
      && r.targetStatusCode == config.targetStatusCode
      && r.keepQueryParameters == (if config.keepQueryParameters then 1 else 0)
      && r.isRegexp == (if config.regexp then 1 else 0)
      && r.forceHttps == (if config.forceHttps then 1 else 0)
      && r.disableHitcount == (if config.disableHitCount then 1 else 0)
      && r.respectQueryParameters == (if config.respectQueryParameters then 1 else 0)
  {
  }

  /** After an overwrite, `getRedirect` for the same URL finds the rewritten row. */
  lemma OverwriteThenLookupFindsIt(t: Table, url: UrlInfo, target: string, config: Configuration, now: int, k: nat)
    requires WellFormed(t)
    requires FirstMatch(t.rows, url) == Some(k)
    requires config.overwriteExisting
    ensures var after := Add(t, url, target, config, false, now).after;
      Lookup(after.rows, url) == Some(Overwrite(t.rows[k], target, config, now))
  {
  }

  /** A match with overwrite under dry run: the table is kept, yet the outcome is still an overwrite. */
  lemma OverwriteUnderDryRunKeepsTable(t: Table, url: UrlInfo, target: string, config: Configuration, now: int)
    requires Lookup(t.rows, url).Some?
    requires config.overwriteExisting
    ensures var e := Lookup(t.rows, url).value;
      Add(t, url, target, config, true, now) == Step(Overwritten(e.uid, e.target, target), t)
  {
  }

  /**
   * A match without overwrite: a different target is a conflicting duplicate,
   * the same target a non-conflicting one; both share one code and neither
   * writes, dry run or not.
   */
  lemma DuplicateWithoutOverwrite(t: Table, url: UrlInfo, target: string, config: Configuration, dryRun: bool, now: int)
    requires Lookup(t.rows, url).Some?
    requires !config.overwriteExisting
    ensures var e := Lookup(t.rows, url).value;
      var step := Add(t, url, target, config, dryRun, now);
      && step.after == t
      && ExceptionCode(step.outcome) == Some(1568487151)
      && (target != e.target <==> step.outcome == Conflicting(e.uid, e.target, target))
      && (target == e.target <==> step.outcome == NonConflicting(e.uid))
  {
  }

  /** Dry run never changes the table, whichever branch is taken. */
  lemma DryRunNeverChangesTable(t: Table, url: UrlInfo, target: string, config: Configuration, now: int)
    ensures Add(t, url, target, config, true, now).after == t
  {
  }

  /** The row count grows by one exactly on an insert without dry run, and is otherwise kept. */
  lemma RowCountGrowsOnlyOnInsert(t: Table, url: UrlInfo, target: string, config: Configuration, dryRun: bool, now: int)
    ensures var step := Add(t, url, target, config, dryRun, now);
      && |step.after.rows| == |t.rows| + (if step.outcome == Inserted then 1 else 0)
      && (step.outcome == Inserted <==> Lookup(t.rows, url).None? && !dryRun)
  {
  }

  /**
   * Adding the same source twice: the second call sees the first row. With
   * the same target it is a non-conflicting duplicate, with another target a
   * conflict; neither changes the table.
   */
  lemma RepeatedAddIsDuplicate(t: Table, url: UrlInfo, target: string, config: Configuration, now: int,
                               target2: string, config2: Configuration, dryRun2: bool, now2: int)
    requires Lookup(t.rows, url).None?
    requires !config2.overwriteExisting
    ensures var first := Add(t, url, target, config, false, now);
      var second := Add(first.after, url, target2, config2, dryRun2, now2);
      && second.after == first.after
      && second.outcome == if target2 == target then NonConflicting(t.nextUid)
                           else Conflicting(t.nextUid, target, target2)
  {
    InsertThenLookupFindsIt(t, url, target, config, now);
  }

  /**
   * A session against an empty table: insert "/old" for any host, repeat it
   * with the same target, try another target without and then with
   * overwrite, and list the table.
   */
  method ExampleSession() returns (first: Outcome, same: Outcome, other: Outcome, overwritten: Outcome, all: seq<Row>)
    ensures first == Inserted
    ensures same == NonConflicting(1)
    ensures other == Conflicting(1, "https://example.com/new", "https://example.com/other")
    ensures overwritten == Overwritten(1, "https://example.com/new", "https://example.com/other")
    ensures |all| == 1
    ensures all[0].uid == 1 && all[0].sourceHost == "*" && all[0].sourcePath == "/old"
    ensures all[0].target == "https://example.com/other" && all[0].targetStatusCode == 301
    ensures all[0].createdon == 100 && all[0].updatedon == 200
  {
    var repo := new RedirectRepository(Table([], 1));
    var url := UrlInfo("", "/old");
    var keep := Configuration(false, false, false, false, false, false, 301);
    var replace := keep.(overwriteExisting := true);
    first := repo.AddRedirect(url, "https://example.com/new", keep, false, 100);
    same := repo.AddRedirect(url, "https://example.com/new", keep, false, 150);
    other := repo.AddRedirect(url, "https://example.com/other", keep, false, 150);
    overwritten := repo.AddRedirect(url, "https://example.com/other", replace, false, 200);
    all := repo.GetAllRedirects();
  }
}
