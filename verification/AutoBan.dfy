/** Picking the addresses to ban: blocked events summed per address and risk tier, each tier judged by its own
    threshold, in whatever order rows and map entries come. */
module AutoBan {
  import opened Counting
  import opened Iteration

  const ATTACK_THRESHOLD := 1
  const ATTACK := 1
  const CRAWLER := 2
  const GENERIC := 3

  datatype Row = Row(ip: string, blockType: int, cnt: int)

  datatype Candidate = Candidate(ip: string, total: nat, topType: int, tier: int, threshold: int)

  /** The thresholds that can be set, and which strings are single addresses. */
  datatype Policy = Policy(generic: int, crawler: int, parses: string -> bool)

  /** 0 for what is no block of its own: other, the black list itself, manual entries. */
  function TierOf(blockType: int): int {
    if 5 <= blockType <= 8 then ATTACK
    else if blockType == 9 then CRAWLER
    else if 2 <= blockType <= 4 || blockType == 10 then GENERIC
    else 0
  }

  function Threshold(p: Policy, tier: int): int {
    if tier == ATTACK then ATTACK_THRESHOLD else if tier == CRAWLER then p.crawler else p.generic
  }

  predicate Relevant(p: Policy, row: Row) {
    row.ip != "" && row.cnt > 0 && p.parses(row.ip) && TierOf(row.blockType) != 0
  }

  // ---- What a candidate is ----

  function TierCount(p: Policy, ip: string, tier: int): Row -> nat {
    (row: Row) => if Relevant(p, row) && row.ip == ip && TierOf(row.blockType) == tier then row.cnt else 0
  }

  function TypeCount(p: Policy, ip: string, blockType: int): Row -> nat {
    (row: Row) => if Relevant(p, row) && row.ip == ip && row.blockType == blockType then row.cnt else 0
  }

  /** The tier has blocks, and enough of them. */
  ghost predicate Reaches(p: Policy, rows: seq<Row>, ip: string, tier: int) {
    Sum(rows, TierCount(p, ip, tier)) > 0 && Sum(rows, TierCount(p, ip, tier)) >= Threshold(p, tier)
  }

  ghost predicate Strictest(p: Policy, rows: seq<Row>, ip: string, tier: int) {
    Reaches(p, rows, ip, tier) && forall t :: Reaches(p, rows, ip, t) ==> tier <= t
  }

  /** Most frequent in its tier; of equally frequent types the smallest. */
  ghost predicate Top(p: Policy, rows: seq<Row>, ip: string, tier: int, top: int) {
    && TierOf(top) == tier
    && Sum(rows, TypeCount(p, ip, top)) > 0
    && forall b :: TierOf(b) == tier ==> Leads(p, rows, ip, top, b)
  }

  ghost predicate Leads(p: Policy, rows: seq<Row>, ip: string, top: int, b: int) {
    var (m, n) := (Sum(rows, TypeCount(p, ip, top)), Sum(rows, TypeCount(p, ip, b)));
    n < m || (n == m && top <= b)
  }

  ghost predicate Deserved(p: Policy, rows: seq<Row>, c: Candidate) {
    && Strictest(p, rows, c.ip, c.tier)
    && c.total == Sum(rows, TierCount(p, c.ip, c.tier))
    && Top(p, rows, c.ip, c.tier, c.topType)
    && c.threshold == Threshold(p, c.tier)
  }

  predicate Before(a: string, b: string) {
    if b == "" then false
    else if a == "" then true
    else a[0] < b[0] || (a[0] == b[0] && Before(a[1..], b[1..]))
  }

  ghost predicate Sorted(out: seq<Candidate>) {
    forall i, j :: 0 <= i < j < |out| ==> Before(out[i].ip, out[j].ip)
  }

  /** The full answer: every address that reaches some threshold, once, in order, with its verdict. */
  ghost predicate Answer(p: Policy, rows: seq<Row>, out: seq<Candidate>) {
    && Sorted(out)
    && (forall c :: c in out ==> Deserved(p, rows, c))
    && (forall ip, tier :: Reaches(p, rows, ip, tier) ==> exists c :: c in out && c.ip == ip)
  }

  // ---- The answer is unique ----

  lemma {:induction false} BeforeIsStrict(a: string, b: string)
    ensures !(Before(a, b) && Before(b, a)) && !Before(a, a)
    ensures a != b ==> Before(a, b) || Before(b, a)
  {
    if a != "" {
      BeforeIsStrict(a[1..], if b != "" then b[1..] else "");
      if b != "" {
        assert a == [a[0]] + a[1..] && b == [b[0]] + b[1..];
      }
    }
  }

  lemma {:induction false} BeforeIsTransitive(a: string, b: string, c: string)
    requires Before(a, b) && Before(b, c)
    ensures Before(a, c)
  {
    if a != "" && a[0] == b[0] == c[0] {
      BeforeIsTransitive(a[1..], b[1..], c[1..]);
    }
  }

  /** The verdict on an address is determined. */
  lemma DeservedOnce(p: Policy, rows: seq<Row>, c: Candidate, d: Candidate)
    requires Deserved(p, rows, c) && Deserved(p, rows, d) && c.ip == d.ip
    ensures c == d
  {
    assert c.tier <= d.tier && d.tier <= c.tier;
    assert Leads(p, rows, c.ip, c.topType, d.topType) && Leads(p, rows, c.ip, d.topType, c.topType);
  }

  lemma TailMembers(a: seq<Candidate>, c: Candidate)
    requires Sorted(a) && a != []
    ensures c in a[1..] <==> c in a && c != a[0]
  {
    BeforeIsStrict(c.ip, c.ip);
    assert a == [a[0]] + a[1..];
    if c in a[1..] {
      var k :| 0 <= k < |a[1..]| && a[1..][k] == c;
      assert a[k + 1] == c;
    }
  }

  lemma EmptyOrMember(s: seq<Candidate>)
    ensures s == [] || exists c :: c in s
  {
    if s != [] {
      assert s[0] in s;
    }
  }

  lemma {:induction false} SortedOnce(a: seq<Candidate>, b: seq<Candidate>)
    requires Sorted(a) && Sorted(b) && forall c :: c in a <==> c in b
    ensures a == b
  {
    if a == [] {
      EmptyOrMember(b);
    } else {
      assert a[0] in b && b[0] in a;
      var j :| 0 <= j < |b| && b[j] == a[0];
      var i :| 0 <= i < |a| && a[i] == b[0];
      BeforeIsStrict(a[0].ip, b[0].ip);
      assert a[0] == b[0];
      forall c
        ensures c in a[1..] <==> c in b[1..]
      {
        TailMembers(a, c);
        TailMembers(b, c);
      }
      SortedOnce(a[1..], b[1..]);
      assert a == [a[0]] + a[1..] && b == [b[0]] + b[1..];
    }
  }

  /** Main result: reordering the rows, and whatever order the maps are walked in, changes nothing. */
  lemma OrderIsIrrelevant(p: Policy, rows: seq<Row>, rows': seq<Row>, out: seq<Candidate>, out': seq<Candidate>)
    requires multiset(rows) == multiset(rows')
    requires Answer(p, rows, out) && Answer(p, rows', out')
    ensures out == out'
  {
    SameSums(p, rows, rows');
    forall c | c in out
      ensures c in out'
    {
      Carried(p, rows, rows', out', c);
    }
    forall c | c in out'
      ensures c in out
    {
      Carried(p, rows', rows, out, c);
    }
    SortedOnce(out, out');
  }

  ghost predicate SumsAgree(p: Policy, rows: seq<Row>, rows': seq<Row>) {
    && (forall ip, t :: Sum(rows, TierCount(p, ip, t)) == Sum(rows', TierCount(p, ip, t)))
    && (forall ip, b :: Sum(rows, TypeCount(p, ip, b)) == Sum(rows', TypeCount(p, ip, b)))
  }

  lemma SameSums(p: Policy, rows: seq<Row>, rows': seq<Row>)
    requires multiset(rows) == multiset(rows')
    ensures SumsAgree(p, rows, rows') && SumsAgree(p, rows', rows)
  {
    forall ip, t
      ensures Sum(rows, TierCount(p, ip, t)) == Sum(rows', TierCount(p, ip, t))
    {
      SumPermuted(rows, rows', TierCount(p, ip, t));
    }
    forall ip, b
      ensures Sum(rows, TypeCount(p, ip, b)) == Sum(rows', TypeCount(p, ip, b))
    {
      SumPermuted(rows, rows', TypeCount(p, ip, b));
    }
  }

  lemma DeservedCarries(p: Policy, rows: seq<Row>, rows': seq<Row>, c: Candidate)
    requires SumsAgree(p, rows, rows') && Deserved(p, rows, c)
    ensures Deserved(p, rows', c)
  {
    forall t | Reaches(p, rows', c.ip, t)
      ensures c.tier <= t
    {
      assert Reaches(p, rows, c.ip, t);
    }
    forall b | TierOf(b) == c.tier
      ensures Leads(p, rows', c.ip, c.topType, b)
    {
      assert Leads(p, rows, c.ip, c.topType, b);
    }
  }

  lemma Carried(p: Policy, rows: seq<Row>, rows': seq<Row>, out': seq<Candidate>, c: Candidate)
    requires SumsAgree(p, rows, rows') && Deserved(p, rows, c) && Answer(p, rows', out')
    ensures c in out'
  {
    DeservedCarries(p, rows, rows', c);
    assert Reaches(p, rows', c.ip, c.tier);
    var d :| d in out' && d.ip == c.ip;
    DeservedOnce(p, rows', c, d);
  }

  // ---- Computing it ----

  function At<K>(m: map<K, nat>, k: K): nat { if k in m then m[k] else 0 }

  type Totals = map<string, map<int, nat>>
  type Counts = map<string, map<int, map<int, nat>>>

  function TotalsAt(totals: Totals, ip: string): map<int, nat> { if ip in totals then totals[ip] else map[] }

  function CountsAt(counts: Counts, ip: string, tier: int): map<int, nat> {
    if ip in counts && tier in counts[ip] then counts[ip][tier] else map[]
  }

  ghost predicate Positive(m: map<int, nat>) { forall k :: k in m ==> m[k] > 0 }

  /** The totals by tier are the sums over the rows; only tiers with blocks are present. */
  ghost predicate TotalsFor(p: Policy, rows: seq<Row>, m: map<int, nat>, ip: string) {
    Positive(m) && forall t :: At(m, t) == Sum(rows, TierCount(p, ip, t))
  }

  ghost predicate CountsFor(p: Policy, rows: seq<Row>, m: map<int, nat>, ip: string, tier: int) {
    Positive(m) && forall b :: At(m, b) == if TierOf(b) == tier then Sum(rows, TypeCount(p, ip, b)) else 0
  }

  ghost predicate TotalsOf(p: Policy, rows: seq<Row>, totals: Totals) {
    forall ip :: TotalsFor(p, rows, TotalsAt(totals, ip), ip)
  }

  ghost predicate CountsOf(p: Policy, rows: seq<Row>, counts: Counts) {
    forall ip, tier :: CountsFor(p, rows, CountsAt(counts, ip, tier), ip, tier)
  }

  function Plus(m: map<int, nat>, k: int, n: nat): map<int, nat> { m[k := At(m, k) + n] }

  function WithTotal(totals: Totals, ip: string, tier: int, n: nat): Totals {
    totals[ip := Plus(TotalsAt(totals, ip), tier, n)]
  }

  function WithCount(counts: Counts, ip: string, tier: int, blockType: int, n: nat): Counts {
    var byTier := if ip in counts then counts[ip] else map[];
    counts[ip := byTier[tier := Plus(CountsAt(counts, ip, tier), blockType, n)]]
  }

  lemma TierAppend(p: Policy, rows: seq<Row>, row: Row, ip: string, t: int)
    ensures Sum(rows + [row], TierCount(p, ip, t)) == Sum(rows, TierCount(p, ip, t)) + TierCount(p, ip, t)(row)
  {
    SumAppend(rows, row, TierCount(p, ip, t));
  }

  lemma TypeAppend(p: Policy, rows: seq<Row>, row: Row, ip: string, b: int)
    ensures Sum(rows + [row], TypeCount(p, ip, b)) == Sum(rows, TypeCount(p, ip, b)) + TypeCount(p, ip, b)(row)
  {
    SumAppend(rows, row, TypeCount(p, ip, b));
  }

  lemma AddTotal(p: Policy, rows: seq<Row>, row: Row, totals: Totals)
    requires TotalsOf(p, rows, totals) && Relevant(p, row)
    ensures TotalsOf(p, rows + [row], WithTotal(totals, row.ip, TierOf(row.blockType), row.cnt))
  {
    var next := WithTotal(totals, row.ip, TierOf(row.blockType), row.cnt);
    forall ip
      ensures TotalsFor(p, rows + [row], TotalsAt(next, ip), ip)
    {
      assert TotalsFor(p, rows, TotalsAt(totals, ip), ip);
      forall t
        ensures At(TotalsAt(next, ip), t) == Sum(rows + [row], TierCount(p, ip, t))
      {
        TierAppend(p, rows, row, ip, t);
      }
    }
  }

  lemma AddCount(p: Policy, rows: seq<Row>, row: Row, counts: Counts)
    requires CountsOf(p, rows, counts) && Relevant(p, row)
    ensures CountsOf(p, rows + [row], WithCount(counts, row.ip, TierOf(row.blockType), row.blockType, row.cnt))
  {
    var next := WithCount(counts, row.ip, TierOf(row.blockType), row.blockType, row.cnt);
    forall ip, tier
      ensures CountsFor(p, rows + [row], CountsAt(next, ip, tier), ip, tier)
    {
      assert CountsFor(p, rows, CountsAt(counts, ip, tier), ip, tier);
      forall b
        ensures At(CountsAt(next, ip, tier), b)
             == if TierOf(b) == tier then Sum(rows + [row], TypeCount(p, ip, b)) else 0
      {
        TypeAppend(p, rows, row, ip, b);
      }
    }
  }

  lemma Skipped(p: Policy, rows: seq<Row>, row: Row, totals: Totals, counts: Counts)
    requires TotalsOf(p, rows, totals) && CountsOf(p, rows, counts) && !Relevant(p, row)
    ensures TotalsOf(p, rows + [row], totals) && CountsOf(p, rows + [row], counts)
  {
    forall ip
      ensures TotalsFor(p, rows + [row], TotalsAt(totals, ip), ip)
    {
      assert TotalsFor(p, rows, TotalsAt(totals, ip), ip);
      forall t
        ensures At(TotalsAt(totals, ip), t) == Sum(rows + [row], TierCount(p, ip, t))
      {
        TierAppend(p, rows, row, ip, t);
      }
    }
    forall ip, tier
      ensures CountsFor(p, rows + [row], CountsAt(counts, ip, tier), ip, tier)
    {
      assert CountsFor(p, rows, CountsAt(counts, ip, tier), ip, tier);
      forall b | TierOf(b) == tier
        ensures At(CountsAt(counts, ip, tier), b) == Sum(rows + [row], TypeCount(p, ip, b))
      {
        TypeAppend(p, rows, row, ip, b);
      }
    }
  }

  /** Summing the rows per address and tier, and per address and type. */
  method Tally(p: Policy, rows: seq<Row>) returns (totals: Totals, counts: Counts)
    ensures TotalsOf(p, rows, totals) && CountsOf(p, rows, counts)
  {
    totals, counts := map[], map[];
    var i := 0;
    while i < |rows|
      invariant i <= |rows|
      invariant TotalsOf(p, rows[..i], totals) && CountsOf(p, rows[..i], counts)
    {
      var row := rows[i];
      assert rows[..i + 1] == rows[..i] + [row];
      var tier := TierOf(row.blockType);
      if row.ip == "" || row.cnt <= 0 || !p.parses(row.ip) || tier == 0 {
        Skipped(p, rows[..i], row, totals, counts);
      } else {
        AddTotal(p, rows[..i], row, totals);
        AddCount(p, rows[..i], row, counts);
        totals := WithTotal(totals, row.ip, tier, row.cnt);
        counts := WithCount(counts, row.ip, tier, row.blockType, row.cnt);
      }
      i := i + 1;
    }
    assert rows[..|rows|] == rows;
  }

  /** The smallest tier number that meets its threshold, or 0. */
  method StrictestTier(p: Policy, byTier: map<int, nat>) returns (hit: int)
    requires forall t :: t in byTier ==> t > 0
    ensures hit == 0 ==> forall t :: t in byTier ==> byTier[t] < Threshold(p, t)
    ensures hit != 0 ==>
      && hit in byTier && byTier[hit] >= Threshold(p, hit)
      && forall t :: t in byTier && byTier[t] >= Threshold(p, t) ==> hit <= t
  {
    hit := 0;
    var left := byTier.Keys;
    while left != {}
      invariant left <= byTier.Keys
      invariant hit == 0 ==> forall t :: t in byTier && t !in left ==> byTier[t] < Threshold(p, t)
      invariant hit != 0 ==>
        && hit in byTier && byTier[hit] >= Threshold(p, hit)
        && forall t :: t in byTier && t !in left && byTier[t] >= Threshold(p, t) ==> hit <= t
      decreases left
    {
      var t := AnyOf(left);
      left := left - {t};
      if byTier[t] >= Threshold(p, t) && (hit == 0 || t < hit) {
        hit := t;
      }
    }
  }

  /** The most frequent type, the smallest number on ties. */
  method TopType(byType: map<int, nat>) returns (top: int)
    requires byType != map[]
    ensures top in byType
    ensures forall b :: b in byType ==> byType[b] < byType[top] || (byType[b] == byType[top] && top <= b)
  {
    top := 0;
    var maxCnt: int := -1;
    var left := byType.Keys;
    while left != {}
      invariant left <= byType.Keys
      invariant if maxCnt == -1 then left == byType.Keys else top in byType && byType[top] == maxCnt
      invariant forall b :: b in byType && b !in left ==> byType[b] < maxCnt || (byType[b] == maxCnt && top <= b)
      decreases left
    {
      var b := AnyOf(left);
      left := left - {b};
      if byType[b] > maxCnt || (byType[b] == maxCnt && b < top) {
        top, maxCnt := b, byType[b];
      }
    }
  }

  lemma ReachesExactly(p: Policy, rows: seq<Row>, byTier: map<int, nat>, ip: string, tier: int)
    requires TotalsFor(p, rows, byTier, ip)
    ensures Reaches(p, rows, ip, tier) <==> tier in byTier && byTier[tier] >= Threshold(p, tier)
  {
    assert At(byTier, tier) == Sum(rows, TierCount(p, ip, tier));
  }

  lemma TiersArePositive(p: Policy, rows: seq<Row>, byTier: map<int, nat>, ip: string, tier: int)
    requires TotalsFor(p, rows, byTier, ip) && tier in byTier
    ensures tier > 0
  {
    assert At(byTier, tier) == Sum(rows, TierCount(p, ip, tier));
    var k := SumWitness(rows, TierCount(p, ip, tier));
    assert TierOf(rows[k].blockType) == tier;
  }

  /** A tier with blocks has a type with blocks. */
  lemma TierHasTypes(p: Policy, rows: seq<Row>, counts: Counts, ip: string, tier: int)
    requires CountsOf(p, rows, counts) && Sum(rows, TierCount(p, ip, tier)) > 0
    ensures CountsAt(counts, ip, tier) != map[]
  {
    var k := SumWitness(rows, TierCount(p, ip, tier));
    var b := rows[k].blockType;
    SumAtLeast(rows, k, TypeCount(p, ip, b));
    assert TypeCount(p, ip, b)(rows[k]) > 0;
    assert CountsFor(p, rows, CountsAt(counts, ip, tier), ip, tier);
    assert At(CountsAt(counts, ip, tier), b) > 0;
  }

  lemma TopOfTier(p: Policy, rows: seq<Row>, byType: map<int, nat>, ip: string, tier: int, top: int)
    requires CountsFor(p, rows, byType, ip, tier) && top in byType
    requires forall b :: b in byType ==> byType[b] < byType[top] || (byType[b] == byType[top] && top <= b)
    ensures Top(p, rows, ip, tier, top)
  {
    assert At(byType, top) > 0;
    forall b | TierOf(b) == tier
      ensures Leads(p, rows, ip, top, b)
    {
      assert At(byType, b) == Sum(rows, TypeCount(p, ip, b));
    }
  }

  /** The verdict on one address. */
  method Judge(p: Policy, ghost rows: seq<Row>, totals: Totals, counts: Counts, ip: string)
    returns (hit: int, c: Candidate)
    requires TotalsOf(p, rows, totals) && CountsOf(p, rows, counts)
    ensures hit == 0 ==> forall tier :: !Reaches(p, rows, ip, tier)
    ensures hit != 0 ==> c.ip == ip && Deserved(p, rows, c)
  {
    var byTier := TotalsAt(totals, ip);
    assert TotalsFor(p, rows, byTier, ip);
    forall t | t in byTier ensures t > 0 {
      TiersArePositive(p, rows, byTier, ip, t);
    }
    forall t ensures Reaches(p, rows, ip, t) <==> t in byTier && byTier[t] >= Threshold(p, t) {
      ReachesExactly(p, rows, byTier, ip, t);
    }
    hit := StrictestTier(p, byTier);
    c := Candidate(ip, 0, 0, 0, 0);
    if hit != 0 {
      assert CountsFor(p, rows, CountsAt(counts, ip, hit), ip, hit);
      TierHasTypes(p, rows, counts, ip, hit);
      var top := TopType(CountsAt(counts, ip, hit));
      TopOfTier(p, rows, CountsAt(counts, ip, hit), ip, hit, top);
      c := Candidate(ip, byTier[hit], top, hit, Threshold(p, hit));
    }
  }

  ghost predicate Distinct(s: seq<Candidate>) {
    forall i, j :: 0 <= i < j < |s| ==> s[i].ip != s[j].ip
  }

  /** Puts a candidate where it belongs. */
  method Insert(sorted: seq<Candidate>, c: Candidate) returns (out: seq<Candidate>)
    requires Sorted(sorted) && forall d :: d in sorted ==> d.ip != c.ip
    ensures Sorted(out) && forall d :: d in out <==> d in sorted || d == c
  {
    var i := 0;
    while i < |sorted| && Before(sorted[i].ip, c.ip)
      invariant i <= |sorted|
      invariant forall k :: 0 <= k < i ==> Before(sorted[k].ip, c.ip)
    {
      i := i + 1;
    }
    if i < |sorted| {
      assert sorted[i] in sorted;
      BeforeIsStrict(sorted[i].ip, c.ip);
    }
    out := sorted[..i] + [c] + sorted[i..];
    InsertedAt(sorted, i, c);
  }

  lemma InsertedAt(sorted: seq<Candidate>, i: nat, c: Candidate)
    requires Sorted(sorted) && i <= |sorted|
    requires forall k :: 0 <= k < i ==> Before(sorted[k].ip, c.ip)
    requires i < |sorted| ==> Before(c.ip, sorted[i].ip)
    ensures Sorted(sorted[..i] + [c] + sorted[i..])
    ensures forall d :: d in sorted[..i] + [c] + sorted[i..] <==> d in sorted || d == c
  {
    var out := sorted[..i] + [c] + sorted[i..];
    forall k | i < k < |sorted|
      ensures Before(c.ip, sorted[k].ip)
    {
      BeforeIsTransitive(c.ip, sorted[i].ip, sorted[k].ip);
    }
    assert forall k :: 0 <= k < |out| ==> out[k] == if k < i then sorted[k] else if k == i then c else sorted[k - 1];
    assert sorted == sorted[..i] + sorted[i..];
  }

  method SortByIp(found: seq<Candidate>) returns (out: seq<Candidate>)
    requires Distinct(found)
    ensures Sorted(out) && forall c :: c in out <==> c in found
  {
    out := [];
    var i := 0;
    while i < |found|
      invariant i <= |found| && Sorted(out)
      invariant forall c :: c in out <==> c in found[..i]
    {
      out := Insert(out, found[i]);
      assert found[..i + 1] == found[..i] + [found[i]];
      i := i + 1;
    }
    assert found[..|found|] == found;
  }

  method AggregateCandidates(p: Policy, rows: seq<Row>) returns (out: seq<Candidate>)
    ensures Answer(p, rows, out)
  {
    var totals, counts := Tally(p, rows);
    var found: seq<Candidate> := [];
    var left := totals.Keys;
    while left != {}
      invariant left <= totals.Keys
      invariant Distinct(found) && forall c :: c in found ==> c.ip !in left && Deserved(p, rows, c)
      invariant forall ip, tier :: Reaches(p, rows, ip, tier) ==> ip in left || ip !in totals || Found(found, ip)
      decreases left
    {
      var ip := AnyOf(left);
      left := left - {ip};
      var hit, c := Judge(p, rows, totals, counts, ip);
      if hit != 0 {
        FoundMore(found, c);
        found := found + [c];
      }
    }
    out := SortByIp(found);
    forall ip, tier | Reaches(p, rows, ip, tier)
      ensures exists c :: c in out && c.ip == ip
    {
      assert TotalsFor(p, rows, TotalsAt(totals, ip), ip);
      ReachesExactly(p, rows, TotalsAt(totals, ip), ip, tier);
      assert Found(found, ip);
    }
  }

  ghost predicate Found(s: seq<Candidate>, ip: string) { exists c :: c in s && c.ip == ip }

  lemma FoundMore(s: seq<Candidate>, c: Candidate)
    ensures Found(s + [c], c.ip) && forall ip :: Found(s, ip) ==> Found(s + [c], ip)
  {
    assert c in s + [c];
    forall ip | Found(s, ip) ensures Found(s + [c], ip) {
      var d :| d in s && d.ip == ip;
      assert d in s + [c];
    }
  }
}
