/**
 * The redirect store of the redirect generator extension: it looks up,
 * inserts and overwrites rows of the host platform's `sys_redirect` table.
 *
 * The table is held in memory as a sequence of rows in storage order; the
 * database's auto-increment counter for `uid` is the field `nextUid`. URL
 * parsing is not part of this model: callers pass the host and the
 * path-with-query of the source URL already split (`UrlInfo`). The request
 * clock is the parameter `now`.
 */
module Repository {

  import opened Wrappers

  /** Tag written into `creation_type` of every row this extension inserts. */
  const CUSTOM_CREATION_TYPE: int := 6332

  /** The `source_host` value that matches a request for any host. */
  const WILDCARD_HOST: string := "*"

  /** Code of the exception that reports an overwritten duplicate. */
  const OVERWRITTEN_DUPLICATE_CODE: int := 1695904053

  /** Code shared by the exceptions for conflicting and non-conflicting duplicates. */
  const DUPLICATE_CODE: int := 1568487151

  /** The two parts of a source URL that the store uses. */
  datatype UrlInfo = UrlInfo(host: string, pathWithQuery: string)

  /** The redirect-creation options of one invocation. */
  datatype Configuration = Configuration(
    overwriteExisting: bool,
    keepQueryParameters: bool,
    regexp: bool,
    forceHttps: bool,
    disableHitCount: bool,
    respectQueryParameters: bool,
    targetStatusCode: int)

  /** One row of `sys_redirect`; the boolean columns hold 1 or 0. */
  datatype Row = Row(
    uid: nat,
    sourceHost: string,
    sourcePath: string,
    target: string,
    targetStatusCode: int,
    keepQueryParameters: int,
    isRegexp: int,
    forceHttps: int,
    disableHitcount: int,
    respectQueryParameters: int,
    createdon: int,
    updatedon: int,
    creationType: int)

  /** The table as a value: its rows in storage order and the next `uid` to hand out. */
  datatype Table = Table(rows: seq<Row>, nextUid: nat)

  /**
   * What `addRedirect` did. The source reports the last three by throwing
   * an exception; here they are results.
   */
  datatype Outcome =
    | Inserted
    | DryRunNoop
    | Overwritten(uid: nat, existingTarget: string, newTarget: string)
    | Conflicting(uid: nat, existingTarget: string, newTarget: string)
    | NonConflicting(uid: nat)

  /** The outcome paired with the table it leaves behind. */
  datatype Step = Step(outcome: Outcome, after: Table)

  /** The code of the exception the source throws for an outcome, if it throws one. */
  function ExceptionCode(o: Outcome): (c: Option<int>)
    ensures c.None? <==> o.Inserted? || o.DryRunNoop?
    ensures o.Overwritten? ==> c == Some(OVERWRITTEN_DUPLICATE_CODE)
    ensures o.Conflicting? || o.NonConflicting? ==> c == Some(DUPLICATE_CODE)
  {
    match o
    case Inserted => None
    case DryRunNoop => None
    case Overwritten(_, _, _) => Some(OVERWRITTEN_DUPLICATE_CODE)
    case Conflicting(_, _, _) => Some(DUPLICATE_CODE)
    case NonConflicting(_) => Some(DUPLICATE_CODE)
  }

  /** A boolean option as stored in an integer column. */
  function Flag(b: bool): int
  {
    if b then 1 else 0
  }

  /** PHP's truthiness of a string: only "" and "0" are false. */
  predicate PhpFalsy(s: string)
  {
    s == "" || s == "0"
  }

  /** `getHost() ?: '*'`: a falsy host is stored as the wildcard. */
  function StoredHost(host: string): (h: string)
    ensures PhpFalsy(host) ==> h == WILDCARD_HOST
    ensures !PhpFalsy(host) ==> h == host
  {
    if PhpFalsy(host) then WILDCARD_HOST else host
  }

  /** The lookup condition: same path-with-query, and wildcard or same host. */
  predicate Matches(row: Row, url: UrlInfo)
  {
    row.sourcePath == url.pathWithQuery &&
    (row.sourceHost == WILDCARD_HOST || row.sourceHost == url.host)
  }

  /**
   * Index of the first matching row. The query takes whichever row the
   * database yields first; the model fixes that to storage order.
   */
  function FirstMatch(rows: seq<Row>, url: UrlInfo): (k: Option<nat>)
    ensures k.Some? ==> k.value < |rows| && Matches(rows[k.value], url)
    ensures k.Some? ==> forall j :: 0 <= j < k.value ==> !Matches(rows[j], url)
    ensures k.None? <==> forall j :: 0 <= j < |rows| ==> !Matches(rows[j], url)
    decreases |rows|
  {
    if |rows| == 0 then None
    else if Matches(rows[0], url) then Some(0)
    else
      match FirstMatch(rows[1..], url)
      case None => None
      case Some(k) => Some(k + 1)
  }

  /** `getRedirect` over a table's rows: the first matching row, or none. */
  function Lookup(rows: seq<Row>, url: UrlInfo): (r: Option<Row>)
    ensures r.Some? ==> Matches(r.value, url)
    ensures r.Some? ==> exists k :: 0 <= k < |rows| && rows[k] == r.value &&
                                    forall j :: 0 <= j < k ==> !Matches(rows[j], url)
    ensures r.None? <==> forall j :: 0 <= j < |rows| ==> !Matches(rows[j], url)
  {
    match FirstMatch(rows, url)
    case None => None
    case Some(k) => Some(rows[k])
  }

  /** The row `addRedirect` inserts for a new redirect, with the `uid` the table assigns. */
  function NewRow(uid: nat, url: UrlInfo, target: string, config: Configuration, now: int): (r: Row)
    ensures Matches(r, url)
  {
    Row(uid := uid,
        sourceHost := StoredHost(url.host),
        sourcePath := url.pathWithQuery,
        target := target,
        targetStatusCode := config.targetStatusCode,
        keepQueryParameters := Flag(config.keepQueryParameters),
        isRegexp := Flag(config.regexp),
        forceHttps := Flag(config.forceHttps),
        disableHitcount := Flag(config.disableHitCount),
        respectQueryParameters := Flag(config.respectQueryParameters),
        createdon := now,
        updatedon := now,
        creationType := CUSTOM_CREATION_TYPE)
  }

  /** A row with the columns that `updateExistingRow` writes replaced. */
  function Overwrite(row: Row, target: string, config: Configuration, now: int): (r: Row)
    ensures r.uid == row.uid && r.createdon == row.createdon && r.creationType == row.creationType
    ensures forall url :: Matches(r, url) <==> Matches(row, url)
  {
    row.(updatedon := now,
         keepQueryParameters := Flag(config.keepQueryParameters),
         isRegexp := Flag(config.regexp),
         forceHttps := Flag(config.forceHttps),
         targetStatusCode := config.targetStatusCode,
         disableHitcount := Flag(config.disableHitCount),
         respectQueryParameters := Flag(config.respectQueryParameters),
         target := target)
  }

  /** `UPDATE sys_redirect SET ... WHERE uid = ?`: every row with that uid is rewritten. */
  function UpdateByUid(rows: seq<Row>, uid: nat, target: string, config: Configuration, now: int): (r: seq<Row>)
    ensures |r| == |rows|
    ensures forall i :: 0 <= i < |rows| && rows[i].uid != uid ==> r[i] == rows[i]
    ensures forall i :: 0 <= i < |rows| && rows[i].uid == uid ==>
      && r[i].uid == rows[i].uid
      && r[i].createdon == rows[i].createdon
      && r[i].sourceHost == rows[i].sourceHost
      && r[i].sourcePath == rows[i].sourcePath
      && r[i].creationType == rows[i].creationType
      && r[i].updatedon == now
      && r[i].target == target
      && r[i].targetStatusCode == config.targetStatusCode
      && r[i].keepQueryParameters == Flag(config.keepQueryParameters)
      && r[i].isRegexp == Flag(config.regexp)
      && r[i].forceHttps == Flag(config.forceHttps)
      && r[i].disableHitcount == Flag(config.disableHitCount)
      && r[i].respectQueryParameters == Flag(config.respectQueryParameters)
  {
    seq(|rows|, i requires 0 <= i < |rows| =>
      if rows[i].uid == uid then Overwrite(rows[i], target, config, now) else rows[i])
  }

  /** The table invariant the auto-increment primary key keeps: uids are distinct and below the counter. */
  ghost predicate WellFormed(t: Table)
  {
    (forall i :: 0 <= i < |t.rows| ==> t.rows[i].uid < t.nextUid) &&
    (forall i, j :: 0 <= i < j < |t.rows| ==> t.rows[i].uid != t.rows[j].uid)
  }

  /**
   * The decision procedure of `addRedirect` on a table value, checks in the
   * source's order: the duplicate check comes before the dry-run check, so a
   * duplicate is reported under dry run too.
   */
  function Add(t: Table, url: UrlInfo, target: string, config: Configuration, dryRun: bool, now: int): Step
  {
    match Lookup(t.rows, url)
    case Some(existing) =>
      if config.overwriteExisting then
        Step(Overwritten(existing.uid, existing.target, target),
             if dryRun then t
             else Table(UpdateByUid(t.rows, existing.uid, target, config, now), t.nextUid))
      else if target != existing.target then
        Step(Conflicting(existing.uid, existing.target, target), t)
      else
        Step(NonConflicting(existing.uid), t)
    case None =>
      if dryRun then Step(DryRunNoop, t)
      else Step(Inserted, Table(t.rows + [NewRow(t.nextUid, url, target, config, now)], t.nextUid + 1))
  }

  /** Rewriting the rows of one uid keeps the table well formed. */
  lemma UpdateKeepsWellFormed(t: Table, uid: nat, target: string, config: Configuration, now: int)
    requires WellFormed(t)
    ensures WellFormed(Table(UpdateByUid(t.rows, uid, target, config, now), t.nextUid))
  {
  }

  /** Appending a row with the next uid keeps the table well formed. */
  lemma InsertKeepsWellFormed(t: Table, row: Row)
    requires WellFormed(t)
    requires row.uid == t.nextUid
    ensures WellFormed(Table(t.rows + [row], t.nextUid + 1))
  {
  }

  /** Every outcome of `addRedirect` leaves a well-formed table well formed. */
  lemma AddKeepsWellFormed(t: Table, url: UrlInfo, target: string, config: Configuration, dryRun: bool, now: int)
    requires WellFormed(t)
    ensures WellFormed(Add(t, url, target, config, dryRun, now).after)
  {
    match Lookup(t.rows, url)
    case Some(existing) =>
      UpdateKeepsWellFormed(t, existing.uid, target, config, now);
    case None =>
      InsertKeepsWellFormed(t, NewRow(t.nextUid, url, target, config, now));
  }

  /** The repository over an in-memory `sys_redirect` table. */
  class RedirectRepository {

    /** The rows of `sys_redirect`, in storage order. */
    var rows: seq<Row>

    /** The auto-increment counter that assigns `uid` on insert. */
    var nextUid: nat

    ghost predicate Valid()
      reads this
    {
      WellFormed(Table(rows, nextUid))
    }

    /** The current table as a value. */
    function Snapshot(): Table
      reads this
    {
      Table(rows, nextUid)
    }

    constructor (initial: Table)
      requires WellFormed(initial)
      ensures Valid()
      ensures Snapshot() == initial
    {
      rows := initial.rows;
      nextUid := initial.nextUid;
    }

    /** `getRedirect`: the first stored row matching the URL, or none. */
    function GetRedirect(url: UrlInfo): (r: Option<Row>)
      reads this
      ensures r.Some? ==> r.value in rows && Matches(r.value, url)
      ensures r.None? <==> forall j :: 0 <= j < |rows| ==> !Matches(rows[j], url)
    {
      Lookup(rows, url)
    }

    /** `getAllRedirects`: the whole table, in storage order. */
    function GetAllRedirects(): (all: seq<Row>)
      reads this
      ensures all == rows
    {
      rows
    }

    /**
     * `addRedirect`: look the URL up, then overwrite, reject, report or
     * insert, as `Add` describes.
     */
    method AddRedirect(url: UrlInfo, target: string, config: Configuration, dryRun: bool, now: int)
      returns (outcome: Outcome)
      requires Valid()
      modifies this
      ensures Valid()
      ensures outcome == Add(old(Snapshot()), url, target, config, dryRun, now).outcome
      ensures Snapshot() == Add(old(Snapshot()), url, target, config, dryRun, now).after
    {
      var existingRow := GetRedirect(url);
      if existingRow.Some? {
        var existing := existingRow.value;
        if config.overwriteExisting {
          UpdateExistingRow(existing, target, config, dryRun, now);
          return Overwritten(existing.uid, existing.target, target);
        }
        if target != existing.target {
          return Conflicting(existing.uid, existing.target, target);
        }
        return NonConflicting(existing.uid);
      }

      if dryRun {
        return DryRunNoop;
      }

      var data := NewRow(nextUid, url, target, config, now);
      InsertKeepsWellFormed(Snapshot(), data);
      rows := rows + [data];
      nextUid := nextUid + 1;
      outcome := Inserted;
    }

    /** `updateExistingRow`: rewrite the mutable columns of the row with `existing.uid`, unless dry run. */
    method UpdateExistingRow(existing: Row, target: string, config: Configuration, dryRun: bool, now: int)
      requires Valid()
      modifies this
      ensures Valid()
      ensures nextUid == old(nextUid)
      ensures rows == if dryRun then old(rows) else UpdateByUid(old(rows), existing.uid, target, config, now)
    {
      if dryRun {
        return;
      }
      UpdateKeepsWellFormed(Snapshot(), existing.uid, target, config, now);
      rows := UpdateByUid(rows, existing.uid, target, config, now);
    }
  }
}
