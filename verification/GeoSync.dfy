/** The resumable address sync: each run scans one log table from a stored row cursor, chunk by chunk, and
    enters the addresses it can locate, under quotas and whatever interruptions and failures come. */
module GeoSync {
  import opened Counting

  const SCAN_CHUNK := 10000
  const IPS_PER_RUN_DEFAULT := 50000
  const SCAN_CAP_DEFAULT := 1000000
  const SAMPLE_SIZE := 5
  const MAX_INT := 0x7FFF_FFFF_FFFF_FFFF

  datatype Row = Row(id: nat, ip: string)

  ghost predicate Sorted(log: seq<Row>, lastId: nat) {
    && (forall i, j :: 0 <= i < j < |log| ==> log[i].id < log[j].id)
    && (forall i :: 0 <= i < |log| ==> 0 < log[i].id <= lastId)
  }

  /** The rows a scan from the cursor still has to visit, in row order. */
  function Beyond(log: seq<Row>, cursor: nat): seq<Row> {
    if log == [] then []
    else
      var rest := Beyond(log[1..], cursor);
      if log[0].id > cursor && log[0].ip != "" then [log[0]] + rest else rest
  }

  lemma {:induction false} BeyondMember(log: seq<Row>, cursor: nat, x: Row)
    ensures x in Beyond(log, cursor) <==> x in log && x.id > cursor && x.ip != ""
  {
    if log != [] {
      BeyondMember(log[1..], cursor, x);
      assert x in log <==> x == log[0] || x in log[1..];
    }
  }

  function Page(log: seq<Row>, cursor: nat): seq<Row> {
    var r := Beyond(log, cursor);
    if |r| > SCAN_CHUNK then r[..SCAN_CHUNK] else r
  }

  /** A page is the first ten thousand rows beyond the cursor, or all when there are fewer. */
  lemma PageIs(log: seq<Row>, cursor: nat)
    ensures Page(log, cursor) <= Beyond(log, cursor)
    ensures |Page(log, cursor)| == if |Beyond(log, cursor)| < 10000 then |Beyond(log, cursor)| else 10000
  {}

  lemma HeadIsLeast(log: seq<Row>, lastId: nat, x: Row)
    requires Sorted(log, lastId) && log != [] && x in log[1..]
    ensures x.id > log[0].id
  {
    var k :| 0 <= k < |log[1..]| && log[1..][k] == x;
    assert log[k + 1] == x;
  }

  lemma PrependSorted(x: Row, rest: seq<Row>, lastId: nat)
    requires Sorted(rest, lastId) && 0 < x.id <= lastId && forall k :: 0 <= k < |rest| ==> rest[k].id > x.id
    ensures Sorted([x] + rest, lastId)
  {}

  lemma TailSorted(log: seq<Row>, lastId: nat)
    requires Sorted(log, lastId) && log != []
    ensures Sorted(log[1..], lastId) && 0 < log[0].id <= lastId
  {}

  lemma {:induction false} BeyondSorted(log: seq<Row>, lastId: nat, cursor: nat)
    requires Sorted(log, lastId)
    ensures Sorted(Beyond(log, cursor), lastId)
  {
    if log != [] {
      TailSorted(log, lastId);
      BeyondSorted(log[1..], lastId, cursor);
      var rest := Beyond(log[1..], cursor);
      forall k | 0 <= k < |rest|
        ensures rest[k].id > log[0].id
      {
        BeyondMember(log[1..], cursor, rest[k]);
        HeadIsLeast(log, lastId, rest[k]);
      }
      PrependSorted(log[0], rest, lastId);
    }
  }

  /** Every row up to the page's last one lies at or before the cursor, is blank, or is on the page. */
  lemma PageCovers(log: seq<Row>, lastId: nat, cursor: nat, x: Row)
    requires Sorted(log, lastId) && Page(log, cursor) != [] && x in log && x.ip != ""
    requires cursor < x.id <= Page(log, cursor)[|Page(log, cursor)| - 1].id
    ensures x in Page(log, cursor)
  {
    var r, p := Beyond(log, cursor), Page(log, cursor);
    BeyondSorted(log, lastId, cursor);
    BeyondMember(log, cursor, x);
    var k :| 0 <= k < |r| && r[k] == x;
    assert p[|p| - 1] == r[|p| - 1];
    assert k < |p|;
    assert p[k] == x;
  }

  /** A larger cursor leaves less to visit. */
  lemma {:induction false} BeyondShrinks(log: seq<Row>, low: nat, high: nat)
    requires low <= high
    ensures |Beyond(log, high)| <= |Beyond(log, low)|
    ensures (exists x :: x in log && low < x.id <= high && x.ip != "") ==> |Beyond(log, high)| < |Beyond(log, low)|
  {
    if log != [] {
      BeyondShrinks(log[1..], low, high);
    }
  }

  // ---- Rows coming and going ----

  /** The log table after its oldest rows have expired and new rows, numbered past all earlier, have come. */
  function Arrive(log: seq<Row>, lastId: nat, arrivals: seq<(nat, string)>): (r: (seq<Row>, nat))
    decreases |arrivals|
  {
    if arrivals == [] then (log, lastId)
    else
      var id := lastId + 1 + arrivals[0].0;
      Arrive(log + [Row(id, arrivals[0].1)], id, arrivals[1..])
  }

  function Expire(log: seq<Row>, n: nat): seq<Row> { if n < |log| then log[n..] else [] }

  ghost predicate Known(geo: set<string>, locatable: string -> bool, ip: string) { ip in geo || !locatable(ip) }

  /** Every row up to the cursor has its address entered, or its address cannot be located. */
  ghost predicate Covered(log: seq<Row>, geo: set<string>, locatable: string -> bool, cursor: nat) {
    forall x :: x in log && x.id <= cursor && x.ip != "" ==> Known(geo, locatable, x.ip)
  }

  /** Rows up to a sound position stay dealt with when others expire or arrive. */
  lemma OutsideKeeps(log: seq<Row>, lastId: nat, geo: set<string>, locatable: string -> bool, fate: Fate, c: nat)
    requires SoundAt(log, lastId, geo, locatable, c)
    ensures var (log', lastId') := Arrive(Expire(log, fate.expired), lastId, fate.arrivals);
            SoundAt(log', lastId', geo, locatable, c)
  {
    ArriveKeeps(Expire(log, fate.expired), lastId, fate.arrivals);
  }

  ghost predicate SoundAt(log: seq<Row>, lastId: nat, geo: set<string>, locatable: string -> bool, c: nat) {
    Sorted(log, lastId) && c <= lastId && Covered(log, geo, locatable, c)
  }

  /** Only addresses that can be located are added. */
  ghost predicate Grown(before: set<string>, after: set<string>, locatable: string -> bool) {
    before <= after && forall ip :: ip in after ==> ip in before || locatable(ip)
  }

  lemma GrownKeeps(log: seq<Row>, lastId: nat, geo: set<string>, after: set<string>, locatable: string -> bool, c: nat)
    requires SoundAt(log, lastId, geo, locatable, c) && Grown(geo, after, locatable)
    ensures SoundAt(log, lastId, after, locatable, c)
  {}

  lemma {:induction false} ArriveKeeps(log: seq<Row>, lastId: nat, arrivals: seq<(nat, string)>)
    requires Sorted(log, lastId)
    ensures var (log', lastId') := Arrive(log, lastId, arrivals);
            && Sorted(log', lastId') && lastId' >= lastId
            && (forall x :: x in log' ==> x in log || x.id > lastId)
    decreases |arrivals|
  {
    if arrivals != [] {
      var id := lastId + 1 + arrivals[0].0;
      var next := log + [Row(id, arrivals[0].1)];
      assert Sorted(next, id);
      ArriveKeeps(next, id, arrivals[1..]);
    }
  }

  // ---- Runs ----

  /** What befalls one turn of the scan loop: rows that expire and arrive before it, and where it stops. */
  datatype Trouble =
    | Calm
    | CancelBefore                                   // the caller has cancelled
    | QueryStops(cancelled: bool)
    | ProbeStops(cancelled: bool)
    | UpsertStops(entered: nat, cancelled: bool)     // after so many addresses

  datatype Fate = Fate(expired: nat, arrivals: seq<(nat, string)>, trouble: Trouble)

  datatype Outcome = Advanced(cursor: nat) | Exhausted | Interrupted | Failed

  /** A step that fails under a cancelled caller ends the run early; otherwise it is an error. */
  function Stopped(cancelled: bool): Outcome { if cancelled then Interrupted else Failed }

  predicate Explains(trouble: Trouble, out: Outcome) {
    match trouble
    case Calm => out.Advanced? || out.Exhausted?
    case CancelBefore => out.Interrupted?
    case QueryStops(cancelled) => if cancelled then out.Interrupted? else out.Failed?
    case ProbeStops(cancelled) => out.Exhausted? || (if cancelled then out.Interrupted? else out.Failed?)
    case UpsertStops(_, cancelled) =>
      out.Advanced? || out.Exhausted? || (if cancelled then out.Interrupted? else out.Failed?)
  }

  datatype Report = Report(scanned: nat, ips: nat, skipped: nat, sample: seq<string>, done: bool, interrupted: bool)

  function NormalizeQuota(v: int, fallback: nat): (limit: nat)
    requires fallback > 0
    ensures limit > 0
    ensures v == 0 ==> limit == 9223372036854775807
    ensures v < 0 ==> limit == fallback
    ensures v > 0 ==> limit == v
  {
    if v == 0 then MAX_INT else if v < 0 then fallback else v
  }

  function NextCursor(prevCursor: nat, maxId: nat, exhausted: bool, interrupted: bool): (nat, bool) {
    if interrupted then (prevCursor, false)
    else if exhausted then (0, true)
    else (maxId, false)
  }

  ghost predicate Distinct(chunk: seq<string>) {
    forall i, j :: 0 <= i < j < |chunk| ==> chunk[i] != chunk[j]
  }

  /** The distinct addresses of a page, in order of appearance, and its largest row number. */
  method Collect(page: seq<Row>) returns (chunk: seq<string>, n: nat, maxId: nat)
    requires forall x :: x in page ==> x.id > 0
    ensures n == |page| && |chunk| <= n && Distinct(chunk)
    ensures forall ip :: ip in chunk ==> exists k :: 0 <= k < |page| && page[k].ip == ip
    ensures forall x :: x in page ==> x.ip in chunk && x.id <= maxId
    ensures page != [] ==> exists k :: 0 <= k < |page| && page[k].id == maxId
  {
    chunk, n, maxId := [], 0, 0;
    var seen: set<string> := {};
    ghost var top: nat := 0;
    while n < |page|
      invariant n <= |page| && |chunk| <= n && Distinct(chunk)
      invariant forall ip :: ip in chunk ==> exists k :: 0 <= k < n && page[k].ip == ip
      invariant forall k :: 0 <= k < n ==> page[k].ip in chunk && page[k].id <= maxId
      invariant n > 0 ==> top < n && page[top].id == maxId
      invariant n == 0 ==> maxId == 0
      invariant forall ip :: ip in seen <==> ip in chunk
    {
      var row := page[n];
      n := n + 1;
      if row.id > maxId {
        maxId, top := row.id, n - 1;
      }
      if row.ip !in seen {
        seen := seen + {row.ip};
        chunk := chunk + [row.ip];
      }
    }
  }

  function Missing(exist: set<string>): string -> bool { (ip: string) => ip !in exist }

  function Unlocatable(exist: set<string>, locatable: string -> bool): string -> bool {
    (ip: string) => ip !in exist && !locatable(ip)
  }

  lemma OneMore(chunk: seq<string>, i: nat, exist: set<string>, locatable: string -> bool)
    requires i < |chunk|
    ensures chunk[..i + 1] == chunk[..i] + [chunk[i]]
    ensures Count(chunk[..i + 1], Missing(exist)) == Count(chunk[..i], Missing(exist)) + if chunk[i] !in exist then 1 else 0
    ensures Count(chunk[..i + 1], Unlocatable(exist, locatable)) == Count(chunk[..i], Unlocatable(exist, locatable))
      + if chunk[i] !in exist && !locatable(chunk[i]) then 1 else 0
  {
    assert chunk[..i + 1] == chunk[..i] + [chunk[i]];
    CountAppend(chunk[..i], chunk[i], Missing(exist));
    CountAppend(chunk[..i], chunk[i], Unlocatable(exist, locatable));
  }

  /** Looks up the addresses not yet entered: vals are those with a location, the others are skipped. */
  method LookUp(chunk: seq<string>, exist: set<string>, locatable: string -> bool, before: Report)
    returns (rep: Report, vals: seq<string>)
    ensures forall ip :: ip in vals <==> ip in chunk && ip !in exist && locatable(ip)
    ensures rep.ips == before.ips + Count(chunk, Missing(exist)) <= before.ips + |chunk|
    ensures rep.skipped == before.skipped + Count(chunk, Unlocatable(exist, locatable))
    ensures rep.ips - before.ips == |vals| + (rep.skipped - before.skipped)
    ensures rep.scanned == before.scanned && rep.done == before.done && rep.interrupted == before.interrupted
    ensures |rep.sample| <= SAMPLE_SIZE || rep.sample == before.sample
    ensures forall ip :: ip in rep.sample ==> ip in before.sample || !locatable(ip)
  {
    rep, vals := before, [];
    var i := 0;
    while i < |chunk|
      invariant i <= |chunk|
      invariant forall ip :: ip in vals <==> ip in chunk[..i] && ip !in exist && locatable(ip)
      invariant rep.ips == before.ips + Count(chunk[..i], Missing(exist)) <= before.ips + i
      invariant rep.skipped == before.skipped + Count(chunk[..i], Unlocatable(exist, locatable))
      invariant rep.ips - before.ips == |vals| + (rep.skipped - before.skipped)
      invariant rep.scanned == before.scanned && rep.done == before.done && rep.interrupted == before.interrupted
      invariant |rep.sample| <= SAMPLE_SIZE || rep.sample == before.sample
      invariant forall ip :: ip in rep.sample ==> ip in before.sample || !locatable(ip)
    {
      var ip := chunk[i];
      OneMore(chunk, i, exist, locatable);
      i := i + 1;
      if ip !in exist {
        rep := rep.(ips := rep.ips + 1);
        if !locatable(ip) {
          rep := rep.(skipped := rep.skipped + 1);
          if |rep.sample| < SAMPLE_SIZE {
            rep := rep.(sample := rep.sample + [ip]);
          }
        } else {
          vals := vals + [ip];
        }
      }
    }
    assert chunk[..|chunk|] == chunk;
  }

  function ToSet(s: seq<string>): set<string> { set x | x in s }

  class GeoSync {
    const locatable: string -> bool
    var log: seq<Row>
    var geo: set<string>
    var cursor: nat
    var lastId: nat                  // the largest row number given out so far

    /** A position is sound when every row up to it is dealt with. */
    ghost predicate Sound(c: nat)
      reads this
    {
      SoundAt(log, lastId, geo, locatable, c)
    }

    ghost predicate Valid()
      reads this
    {
      Sound(cursor)
    }

    constructor (locatable: string -> bool)
      ensures Valid() && log == [] && geo == {} && cursor == 0 && this.locatable == locatable
    {
      this.locatable := locatable;
      log, geo, cursor, lastId := [], {}, 0, 0;
    }

    /** What others do to the log table before a turn. */
    method Outside(fate: Fate, c: nat)
      requires Sound(c) && Valid()
      modifies this`log, this`lastId
      ensures Sound(c) && Valid()
      ensures (log, lastId) == Arrive(Expire(old(log), fate.expired), old(lastId), fate.arrivals)
    {
      OutsideKeeps(log, lastId, geo, locatable, fate, c);
      OutsideKeeps(log, lastId, geo, locatable, fate, cursor);
      var next := Arrive(Expire(log, fate.expired), lastId, fate.arrivals);
      log, lastId := next.0, next.1;
    }

    ghost predicate AllKnown()
      reads this
    {
      forall x :: x in log && x.ip != "" ==> Known(geo, locatable, x.ip)
    }

    /** One turn of the scan loop from position c. */
    method Turn(trouble: Trouble, c: nat, before: Report) returns (rep: Report, out: Outcome)
      requires Sound(c) && Valid()
      modifies this`geo
      ensures Sound(c) && Valid() && Grown(old(geo), geo, locatable)
      ensures rep.done == before.done && rep.interrupted == before.interrupted
      ensures rep.scanned <= before.scanned + SCAN_CHUNK && rep.ips <= before.ips + SCAN_CHUNK
      ensures out.Advanced? ==> rep.scanned == before.scanned + |Page(log, c)|
      ensures out.Advanced? ==> c < out.cursor && Sound(out.cursor) && |Beyond(log, out.cursor)| < |Beyond(log, c)|
      ensures out.Exhausted? ==> AllKnown()
      ensures Explains(trouble, out)
    {
      rep := before;
      match trouble {
        case CancelBefore => return rep, Interrupted;
        case QueryStops(cancelled) => return rep, Stopped(cancelled);
        case _ =>
      }
      var page := Page(log, c);
      BeyondSorted(log, lastId, c);
      var chunk, n, maxId := Collect(page);
      if n == 0 {
        forall x | x in log && x.ip != "" ensures Known(geo, locatable, x.ip) {
          BeyondMember(log, c, x);
        }
        return rep, Exhausted;
      }
      rep := rep.(scanned := rep.scanned + n);
      if trouble.ProbeStops? {
        return rep, Stopped(trouble.cancelled);
      }
      var whole;
      rep, whole := Enter(chunk, trouble, c, rep);
      if !whole {
        return rep, Stopped(trouble.cancelled);
      }
      PageDone(page, c, maxId, chunk);
      out := Advanced(maxId);
    }

    /** Probing, looking up and entering a chunk; not whole when entering stopped part way. */
    method Enter(chunk: seq<string>, trouble: Trouble, c: nat, before: Report) returns (rep: Report, whole: bool)
      requires Sound(c) && Valid()
      modifies this`geo
      ensures Sound(c) && Valid() && Grown(old(geo), geo, locatable)
      ensures rep.scanned == before.scanned && before.ips <= rep.ips <= before.ips + |chunk|
      ensures rep.done == before.done && rep.interrupted == before.interrupted
      ensures whole ==> forall ip :: ip in chunk ==> Known(geo, locatable, ip)
      ensures !whole ==> trouble.UpsertStops?
    {
      var exist := set ip | ip in chunk && ip in geo;
      var vals;
      rep, vals := LookUp(chunk, exist, locatable, before);
      whole := |vals| == 0 || !trouble.UpsertStops?;
      var k := if !whole && trouble.entered < |vals| then trouble.entered else |vals|;
      var after := geo + ToSet(vals[..k]);
      GrownKeeps(log, lastId, geo, after, locatable, c);
      GrownKeeps(log, lastId, geo, after, locatable, cursor);
      geo := after;
      assert whole ==> vals[..k] == vals;
    }

    /** With all addresses of its page dealt with, the position may move to the page's last row. */
    lemma PageDone(page: seq<Row>, c: nat, maxId: nat, chunk: seq<string>)
      requires Sound(c) && page == Page(log, c) && page != []
      requires forall x :: x in page ==> x.ip in chunk && x.id <= maxId
      requires exists k :: 0 <= k < |page| && page[k].id == maxId
      requires forall ip :: ip in chunk ==> Known(geo, locatable, ip)
      ensures Sound(maxId) && c < maxId && |Beyond(log, maxId)| < |Beyond(log, c)|
    {
      BeyondSorted(log, lastId, c);
      assert page[|page| - 1] == Beyond(log, c)[|page| - 1];
      BeyondMember(log, c, page[|page| - 1]);
      forall x | x in log && x.id <= maxId && x.ip != ""
        ensures Known(geo, locatable, x.ip)
      {
        if x.id > c {
          PageCovers(log, lastId, c, x);
        }
      }
      BeyondShrinks(log, c, maxId);
    }

    /** A run under the given quotas; fates say what befalls its turns, which are calm when none is left. */
    method SyncTable(ipQuota: int, scanQuota: int, fates: seq<Fate>) returns (rep: Report, failed: bool)
      requires Valid()
      modifies this
      ensures Valid()
      ensures Grown(old(geo), geo, locatable)
      ensures rep.done ==> cursor == 0 && AllKnown()
      ensures failed || rep.interrupted ==> cursor == old(cursor) && !rep.done
      ensures !failed && !rep.interrupted && !rep.done ==> cursor > old(cursor)
      ensures rep.scanned < NormalizeQuota(scanQuota, 1000000) + 10000
      ensures rep.ips < NormalizeQuota(ipQuota, 50000) + 10000
      ensures !failed && !rep.interrupted && !rep.done ==>
                rep.ips >= NormalizeQuota(ipQuota, 50000) || rep.scanned >= NormalizeQuota(scanQuota, 1000000)
      ensures fates == [] ==>
                && log == old(log) && !failed && !rep.interrupted
                && (!rep.done ==> |Beyond(log, cursor)| < |Beyond(log, old(cursor))|)
    {
      rep, failed := Report(0, 0, 0, [], false, false), false;
      var ipLimit := NormalizeQuota(ipQuota, IPS_PER_RUN_DEFAULT);
      var scanLimit := NormalizeQuota(scanQuota, SCAN_CAP_DEFAULT);
      var prevCursor := cursor;
      var c, committedId: nat, exhausted, i: nat := prevCursor, 0, false, 0;
      while rep.ips < ipLimit && rep.scanned < scanLimit && !exhausted
        invariant i <= |fates| && Valid() && Sound(c) && cursor == prevCursor == old(cursor) && prevCursor <= c
        invariant Grown(old(geo), geo, locatable)
        invariant rep.scanned < scanLimit + SCAN_CHUNK && rep.ips < ipLimit + SCAN_CHUNK
        invariant !rep.done && !rep.interrupted
        invariant exhausted ==> AllKnown()
        invariant if c == prevCursor then exhausted || (rep.ips == 0 && rep.scanned == 0) else c == committedId
        invariant fates == [] ==> log == old(log) && |Beyond(log, c)| <= |Beyond(log, prevCursor)|
        invariant fates == [] && c > prevCursor ==> |Beyond(log, c)| < |Beyond(log, prevCursor)|
        decreases |fates| - i, !exhausted, |Beyond(log, c)|
      {
        var fate := Fate(0, [], Calm);
        if i < |fates| {
          fate := fates[i];
          i := i + 1;
        }
        var out;
        Outside(fate, c);
        rep, out := Turn(fate.trouble, c, rep);
        match out {
          case Interrupted =>
            rep := rep.(interrupted := true);
            break;
          case Failed =>
            return rep, true;
          case Exhausted =>
            exhausted := true;
          case Advanced(maxId) =>
            committedId, c := maxId, maxId;
        }
      }
      var (next, done) := NextCursor(prevCursor, committedId, exhausted, rep.interrupted);
      cursor := next;
      rep := rep.(done := done);
    }

    /** The timer's runs, none disturbed, on a table that stays as it is: the scan comes to its end. */
    method Backfill(ipQuota: int, scanQuota: int) returns (runs: nat)
      requires Valid()
      modifies this
      ensures Valid() && log == old(log) && cursor == 0 && AllKnown()
      ensures runs <= |Beyond(log, old(cursor))| + 1
    {
      runs := 0;
      var done := false;
      while !done
        invariant Valid() && log == old(log) && (done ==> cursor == 0 && AllKnown())
        invariant runs + (if done then 0 else |Beyond(log, cursor)| + 1) <= |Beyond(log, old(cursor))| + 1
        decreases !done, |Beyond(log, cursor)|
      {
        var rep, failed := SyncTable(ipQuota, scanQuota, []);
        done := rep.done;
        runs := runs + 1;
      }
    }
  }
}
