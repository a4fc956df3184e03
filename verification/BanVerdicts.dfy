/** Which addresses are banned, told from their blocks by type: who is on the list, in which tier, with which
    total and threshold. */
module BanVerdicts {
  import opened AutoBan
  import opened Counting

  /** The blocks of an address by type: the types that count as attacks, as crawling, and as anything else. */
  predicate Attack(t: int) { t == 5 || t == 6 || t == 7 || t == 8 }
  predicate Crawl(t: int) { t == 9 }
  predicate Other(t: int) { t == 2 || t == 3 || t == 4 || t == 10 }

  predicate Counts(p: Policy, row: Row, ip: string) {
    row.ip == ip && ip != "" && row.cnt > 0 && p.parses(ip)
  }

  function BlocksOf(p: Policy, rows: seq<Row>, ip: string, kind: int -> bool): nat {
    if rows == [] then 0
    else
      var row := rows[|rows| - 1];
      BlocksOf(p, rows[..|rows| - 1], ip, kind) + if Counts(p, row, ip) && kind(row.blockType) then row.cnt else 0
  }

  lemma {:induction false} BlocksAreSums(p: Policy, rows: seq<Row>, ip: string, kind: int -> bool, tier: int)
    requires forall t :: kind(t) <==> TierOf(t) == tier
    requires tier != 0
    ensures Sum(rows, TierCount(p, ip, tier)) == BlocksOf(p, rows, ip, kind)
  {
    if rows != [] {
      BlocksAreSums(p, rows[..|rows| - 1], ip, kind, tier);
    }
  }

  lemma TierSums(p: Policy, rows: seq<Row>, ip: string)
    ensures Sum(rows, TierCount(p, ip, 1)) == BlocksOf(p, rows, ip, Attack)
    ensures Sum(rows, TierCount(p, ip, 2)) == BlocksOf(p, rows, ip, Crawl)
    ensures Sum(rows, TierCount(p, ip, 3)) == BlocksOf(p, rows, ip, Other)
  {
    BlocksAreSums(p, rows, ip, Attack, 1);
    BlocksAreSums(p, rows, ip, Crawl, 2);
    BlocksAreSums(p, rows, ip, Other, 3);
  }

  lemma OnlyThreeTiers(p: Policy, rows: seq<Row>, ip: string, tier: int)
    requires Reaches(p, rows, ip, tier)
    ensures tier == 1 || tier == 2 || tier == 3
  {
    var k := SumWitness(rows, TierCount(p, ip, tier));
    assert TierOf(rows[k].blockType) == tier != 0;
  }

  predicate Attacks(p: Policy, rows: seq<Row>, ip: string) { BlocksOf(p, rows, ip, Attack) >= 1 }

  predicate Crawls(p: Policy, rows: seq<Row>, ip: string) {
    var n := BlocksOf(p, rows, ip, Crawl);
    n > 0 && n >= p.crawler
  }

  predicate Disturbs(p: Policy, rows: seq<Row>, ip: string) {
    var n := BlocksOf(p, rows, ip, Other);
    n > 0 && n >= p.generic
  }

  lemma ReachesMeans(p: Policy, rows: seq<Row>, ip: string)
    ensures Reaches(p, rows, ip, 1) <==> Attacks(p, rows, ip)
    ensures Reaches(p, rows, ip, 2) <==> Crawls(p, rows, ip)
    ensures Reaches(p, rows, ip, 3) <==> Disturbs(p, rows, ip)
  {
    TierSums(p, rows, ip);
  }

  /** Main result: an address is on the list exactly when it has attacked at all, or has as many crawler blocks or
      as many other blocks as their thresholds ask for. */
  lemma ListedExactly(p: Policy, rows: seq<Row>, out: seq<Candidate>, ip: string)
    requires Answer(p, rows, out)
    ensures (exists c :: c in out && c.ip == ip) <==>
      Attacks(p, rows, ip) || Crawls(p, rows, ip) || Disturbs(p, rows, ip)
  {
    ReachesMeans(p, rows, ip);
    if exists c :: c in out && c.ip == ip {
      var c :| c in out && c.ip == ip;
      assert Deserved(p, rows, c);
      OnlyThreeTiers(p, rows, ip, c.tier);
    }
  }

  /** And it is listed for the gravest of these, with the blocks of that kind, the threshold they met, and the
      most frequent type among them. */
  lemma ListedFor(p: Policy, rows: seq<Row>, c: Candidate)
    requires Deserved(p, rows, c)
    ensures Attacks(p, rows, c.ip) ==>
      c.tier == 1 && c.threshold == 1 && c.total == BlocksOf(p, rows, c.ip, Attack) && Attack(c.topType)
    ensures !Attacks(p, rows, c.ip) && Crawls(p, rows, c.ip) ==>
      c.tier == 2 && c.threshold == p.crawler && c.total == BlocksOf(p, rows, c.ip, Crawl) && Crawl(c.topType)
    ensures !Attacks(p, rows, c.ip) && !Crawls(p, rows, c.ip) ==>
      c.tier == 3 && c.threshold == p.generic && c.total == BlocksOf(p, rows, c.ip, Other) && Other(c.topType)
    ensures forall t :: TierOf(t) == c.tier ==>
      var (m, n) := (TypeBlocks(p, rows, c.ip, c.topType), TypeBlocks(p, rows, c.ip, t));
      n < m || (n == m && c.topType <= t)
  {
    ReachesMeans(p, rows, c.ip);
    TierSums(p, rows, c.ip);
    OnlyThreeTiers(p, rows, c.ip, c.tier);
    forall t | TierOf(t) == c.tier
      ensures var (m, n) := (TypeBlocks(p, rows, c.ip, c.topType), TypeBlocks(p, rows, c.ip, t));
        n < m || (n == m && c.topType <= t)
    {
      assert Leads(p, rows, c.ip, c.topType, t);
      TypeSums(p, rows, c.ip, t);
      TypeSums(p, rows, c.ip, c.topType);
    }
  }

  function TypeBlocks(p: Policy, rows: seq<Row>, ip: string, t: int): nat { BlocksOf(p, rows, ip, (x: int) => x == t) }

  lemma {:induction false} TypeSums(p: Policy, rows: seq<Row>, ip: string, t: int)
    requires TierOf(t) != 0
    ensures Sum(rows, TypeCount(p, ip, t)) == TypeBlocks(p, rows, ip, t)
  {
    SameType(p, rows, ip, t, (x: int) => x == t);
  }

  lemma {:induction false} SameType(p: Policy, rows: seq<Row>, ip: string, t: int, kind: int -> bool)
    requires TierOf(t) != 0 && forall x :: kind(x) <==> x == t
    ensures Sum(rows, TypeCount(p, ip, t)) == BlocksOf(p, rows, ip, kind)
  {
    if rows != [] {
      SameType(p, rows[..|rows| - 1], ip, t, kind);
    }
  }

  /** The list is ordered as strings are: at the first difference, or by length when there is none. */
  lemma {:induction false} BeforeMeans(a: string, b: string) returns (k: nat)
    ensures k <= |a| && k <= |b| && a[..k] == b[..k]
    ensures Before(a, b) <==> k < |b| && (k == |a| || a[k] < b[k])
    ensures k < |a| && k < |b| ==> a[k] != b[k]
  {
    k := 0;
    if a != "" && b != "" && a[0] == b[0] {
      k := BeforeMeans(a[1..], b[1..]);
      assert a[..k + 1] == [a[0]] + a[1..][..k] && b[..k + 1] == [b[0]] + b[1..][..k];
      k := k + 1;
    }
  }
}
