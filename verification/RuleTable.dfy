/** The routing snapshot: rules put in order, per-host candidate lists merged from two ordered lists, and
    the first hit in a list - proved to be the least rule that applies. */
module RuleTable {
  import opened Text
  import opened Options
  import opened Rules

  /** The order rules are tried in. */
  predicate Less(a: Rule, b: Rule) { a.order < b.order || (a.order == b.order && a.id < b.id) }

  predicate NotAfter(a: Rule, b: Rule) { a.order < b.order || (a.order == b.order && a.id <= b.id) }

  ghost predicate Ordered(s: seq<Rule>) {
    forall p, q :: 0 <= p < q < |s| ==> NotAfter(s[p], s[q])
  }

  ghost predicate StrictlyOrdered(s: seq<Rule>) {
    forall p, q :: 0 <= p < q < |s| ==> Less(s[p], s[q])
  }

  ghost predicate UniqueIds(s: seq<Rule>) {
    forall p, q :: 0 <= p < q < |s| ==> s[p].id != s[q].id
  }

  // ---- Sorting in place ----

  /** a is in order up to n, except that the element at j may belong further left. */
  ghost predicate OrderedBut(a: seq<Rule>, n: nat, j: nat) {
    && n <= |a|
    && forall p, q :: 0 <= p < q < n && q != j ==> NotAfter(a[p], a[q])
  }

  /** Insertion sort by (match order, id), as a permutation in place. */
  method SortRules(rules: array<Rule>)
    modifies rules
    ensures Ordered(rules[..]) && multiset(rules[..]) == multiset(old(rules[..]))
  {
    var i := 1;
    while i < rules.Length
      invariant 1 <= i
      invariant i <= rules.Length || rules.Length == 0
      invariant OrderedBut(rules[..], if i <= rules.Length then i else rules.Length, rules.Length)
      invariant multiset(rules[..]) == multiset(old(rules[..]))
    {
      Sink(rules, i);
      i := i + 1;
    }
  }

  /** Move the element at i left to its place among the ordered ones before it. */
  method Sink(rules: array<Rule>, i: nat)
    requires i < rules.Length && OrderedBut(rules[..], i, rules.Length)
    modifies rules
    ensures OrderedBut(rules[..], i + 1, rules.Length)
    ensures multiset(rules[..]) == multiset(old(rules[..]))
  {
    var j := i;
    while j > 0
      invariant 0 <= j <= i
      invariant OrderedBut(rules[..], i + 1, j)
      invariant multiset(rules[..]) == multiset(old(rules[..]))
    {
      var a, b := rules[j - 1], rules[j];
      if NotAfter(a, b) {
        break;
      }
      rules[j - 1], rules[j] := b, a;
      j := j - 1;
    }
  }

  /** Distinct ids make the order strict. */
  lemma OrderedIsStrict(s: seq<Rule>)
    requires Ordered(s) && UniqueIds(s)
    ensures StrictlyOrdered(s)
  {}

  /** Distinct ids are a property of the rules, not of how they are arranged. */
  lemma UniqueIdsKept(s: seq<Rule>, t: seq<Rule>)
    requires UniqueIds(s) && multiset(s) == multiset(t)
    ensures UniqueIds(t)
  {
    forall p, q | 0 <= p < q < |t|
      ensures t[p].id != t[q].id
    {
      if t[p].id == t[q].id {
        TwicePresent(t, p, q);
        assert t[p] in multiset(s) && t[q] in multiset(s);
        var i :| 0 <= i < |s| && s[i] == t[p];
        var k :| 0 <= k < |s| && s[k] == t[q];
        assert i == k;
        OncePresent(s, i);
      }
    }
  }

  lemma TwicePresent(t: seq<Rule>, p: nat, q: nat)
    requires p < q < |t|
    ensures t[p] == t[q] ==> multiset(t)[t[p]] >= 2
  {
    assert t == t[..q] + [t[q]] + t[q + 1..];
    assert t[p] in t[..q];
    assert multiset(t) == multiset(t[..q]) + multiset{t[q]} + multiset(t[q + 1..]);
  }

  lemma OncePresent(s: seq<Rule>, i: nat)
    requires i < |s| && UniqueIds(s)
    ensures multiset(s)[s[i]] == 1
  {
    assert s == s[..i] + [s[i]] + s[i + 1..];
    assert s[i] !in s[..i] && s[i] !in s[i + 1..];
    assert multiset(s) == multiset(s[..i]) + multiset{s[i]} + multiset(s[i + 1..]);
  }

  // ---- Candidate lists ----

  /** The rules among the first n for one of two domains, in order. */
  function ForDomains(rules: seq<Rule>, n: nat, d: string, e: string): (r: seq<Rule>)
    requires n <= |rules|
  {
    if n == 0 then []
    else
      var r := ForDomains(rules, n - 1, d, e);
      if rules[n - 1].domain == d || rules[n - 1].domain == e then r + [rules[n - 1]] else r
  }

  /** The two-way merge the loop performs. */
  function Merge(a: seq<Rule>, b: seq<Rule>): seq<Rule>
    decreases |a| + |b|
  {
    if a == [] then b
    else if b == [] then a
    else if Less(a[0], b[0]) then [a[0]] + Merge(a[1..], b)
    else [b[0]] + Merge(a, b[1..])
  }

  lemma MergeStep(merged: seq<Rule>, a: seq<Rule>, b: seq<Rule>, i: nat, j: nat)
    requires i < |a| && j < |b|
    ensures merged + Merge(a[i..], b[j..]) ==
            if Less(a[i], b[j]) then merged + [a[i]] + Merge(a[i + 1..], b[j..])
            else merged + [b[j]] + Merge(a[i..], b[j + 1..])
  {
    assert a[i..][1..] == a[i + 1..] && b[j..][1..] == b[j + 1..];
  }

  method MergeLists(a: seq<Rule>, b: seq<Rule>) returns (merged: seq<Rule>)
    ensures merged == Merge(a, b)
  {
    merged := [];
    var i, j := 0, 0;
    while i < |a| && j < |b|
      invariant 0 <= i <= |a| && 0 <= j <= |b|
      invariant merged + Merge(a[i..], b[j..]) == Merge(a, b)
      decreases |a| - i + |b| - j
    {
      MergeStep(merged, a, b, i, j);
      var x, y := a[i], b[j];
      if Less(x, y) {
        merged := merged + [x];
        i := i + 1;
      } else {
        merged := merged + [y];
        j := j + 1;
      }
    }
    merged := merged + a[i..];
    merged := merged + b[j..];
  }

  lemma {:induction false} ForDomainsSound(rules: seq<Rule>, n: nat, d: string, e: string)
    requires n <= |rules|
    ensures forall x :: x in ForDomains(rules, n, d, e) <==> x in rules[..n] && (x.domain == d || x.domain == e)
  {
    if n > 0 {
      ForDomainsSound(rules, n - 1, d, e);
      assert rules[..n] == rules[..n - 1] + [rules[n - 1]];
    }
  }

  lemma {:induction false} ForDomainsStrict(rules: seq<Rule>, n: nat, d: string, e: string)
    requires n <= |rules| && StrictlyOrdered(rules)
    ensures StrictlyOrdered(ForDomains(rules, n, d, e))
  {
    if n > 0 {
      ForDomainsStrict(rules, n - 1, d, e);
      ForDomainsSound(rules, n - 1, d, e);
      var r := ForDomains(rules, n - 1, d, e);
      assert forall p :: 0 <= p < |r| ==> r[p] in r && r[p] in rules[..n - 1];
    }
  }

  /** A greatest rule alone is merged last. */
  lemma {:induction false} MergeOne(b: seq<Rule>, z: Rule)
    requires forall y :: y in b ==> Less(y, z)
    ensures Merge([z], b) == b + [z] && Merge(b, [z]) == b + [z]
  {
    if b != [] {
      assert b[0] in b;
      MergeOne(b[1..], z);
      assert b == [b[0]] + b[1..];
    }
  }

  lemma MergeHeads(a: seq<Rule>, b: seq<Rule>)
    requires a != [] && b != []
    ensures Merge(a, b) == if Less(a[0], b[0]) then [a[0]] + Merge(a[1..], b) else [b[0]] + Merge(a, b[1..])
  {}

  /** A greatest rule of either list is merged last. */
  lemma {:induction false} MergeEnd(a: seq<Rule>, b: seq<Rule>, z: Rule)
    requires forall x :: x in a ==> Less(x, z)
    requires forall y :: y in b ==> Less(y, z)
    ensures Merge(a + [z], b) == Merge(a, b) + [z]
    ensures Merge(a, b + [z]) == Merge(a, b) + [z]
    decreases |a| + |b|
  {
    if a == [] {
      MergeOne(b, z);
      assert a + [z] == [z];
    } else if b == [] {
      MergeOne(a, z);
      assert b + [z] == [z];
    } else {
      assert a[0] in a && b[0] in b;
      assert (a + [z])[1..] == a[1..] + [z] && (b + [z])[1..] == b[1..] + [z];
      MergeHeads(a, b);
      MergeHeads(a + [z], b);
      MergeHeads(a, b + [z]);
      if Less(a[0], b[0]) {
        MergeEnd(a[1..], b, z);
      } else {
        MergeEnd(a, b[1..], z);
      }
    }
  }

  /** Merging the rules without domain with those of domain d restores exactly their order in the whole table. */
  lemma {:induction false} MergeRestores(rules: seq<Rule>, n: nat, d: string)
    requires n <= |rules| && StrictlyOrdered(rules) && d != ""
    ensures Merge(ForDomains(rules, n, "", ""), ForDomains(rules, n, d, d)) == ForDomains(rules, n, "", d)
  {
    if n > 0 {
      MergeRestores(rules, n - 1, d);
      var z := rules[n - 1];
      var a, b := ForDomains(rules, n - 1, "", ""), ForDomains(rules, n - 1, d, d);
      ForDomainsSound(rules, n - 1, "", "");
      ForDomainsSound(rules, n - 1, d, d);
      assert forall x :: x in rules[..n - 1] ==> Less(x, z);
      MergeEnd(a, b, z);
    }
  }

  // ---- Matching ----

  /** The first rule of a list whose path condition holds, with its parameters. */
  function FirstHit(cands: seq<Rule>, n: nat, path: string): Option<(Rule, Params)>
    requires n <= |cands|
    decreases |cands| - n
  {
    if n == |cands| then None
    else
      match PathHit(cands[n], path)
      case Some(params) => Some((cands[n], params))
      case None => FirstHit(cands, n + 1, path)
  }

  /** The rule serves a request for this normalised host and path. */
  predicate Applies(r: Rule, host: string, path: string) {
    (r.domain == "" || r.domain == host) && PathHit(r, path).Some?
  }

  /** The verdict is right: the least rule that applies with its own parameters, or none when none applies. */
  ghost predicate LeastHit(rules: seq<Rule>, host: string, path: string, r: Option<(Rule, Params)>) {
    match r
    case None => forall x :: x in rules ==> !Applies(x, host, path)
    case Some(hit) =>
      && hit.0 in rules && Applies(hit.0, host, path) && PathHit(hit.0, path) == Some(hit.1)
      && forall x :: x in rules && Applies(x, host, path) ==> NotAfter(hit.0, x)
  }

  lemma {:induction false} FirstHitIsLeast(cands: seq<Rule>, n: nat, path: string)
    requires n <= |cands| && StrictlyOrdered(cands)
    ensures match FirstHit(cands, n, path)
      case None => forall x :: x in cands[n..] ==> PathHit(x, path).None?
      case Some(hit) =>
        && hit.0 in cands[n..] && PathHit(hit.0, path) == Some(hit.1)
        && forall x :: x in cands[n..] && PathHit(x, path).Some? ==> NotAfter(hit.0, x)
    decreases |cands| - n
  {
    if n < |cands| {
      FirstHitIsLeast(cands, n + 1, path);
      assert cands[n..] == [cands[n]] + cands[n + 1..];
      assert forall x :: x in cands[n + 1..] ==> Less(cands[n], x);
    }
  }

  function AllBuilt(rows: seq<RuleRow>): seq<Rule> {
    seq(|rows|, i requires 0 <= i < |rows| => Built(rows[i]))
  }

  class RouteSnapshot {
    var rules: seq<Rule>
    var anyDomain: seq<Rule>
    var byDomain: map<string, seq<Rule>>

    ghost predicate Valid()
      reads this
    {
      && StrictlyOrdered(rules)
      && anyDomain == ForDomains(rules, |rules|, "", "")
      && "" !in byDomain
      && (forall d :: d in byDomain ==> byDomain[d] == ForDomains(rules, |rules|, "", d))
      && (forall r :: r in rules && r.domain != "" ==> r.domain in byDomain)
    }

    /** Build the snapshot from rule rows: ready each, sort, then derive the candidate lists. */
    constructor (rows: seq<RuleRow>)
      requires forall p, q :: 0 <= p < q < |rows| ==> rows[p].id != rows[q].id
      ensures Valid() && multiset(rules) == multiset(AllBuilt(rows))
    {
      var table := new Rule[|rows|](i requires 0 <= i < |rows| => Built(rows[i]));
      assert table[..] == AllBuilt(rows);
      SortRules(table);
      UniqueIdsKept(AllBuilt(rows), table[..]);
      OrderedIsStrict(table[..]);
      rules, anyDomain, byDomain := table[..], [], map[];
      new;
      BuildHostCandidates();
    }

    method BuildHostCandidates()
      requires StrictlyOrdered(rules)
      modifies this
      ensures rules == old(rules) && Valid()
    {
      var any, perDomain := GroupByDomain(rules);
      anyDomain := any;
      byDomain := MergeDomains(rules, any, perDomain);
    }

    /** One pass over the table: the rules without domain, and those of each domain, in table order. */
    static method GroupByDomain(rules: seq<Rule>) returns (any: seq<Rule>, perDomain: map<string, seq<Rule>>)
      ensures any == ForDomains(rules, |rules|, "", "") && "" !in perDomain
      ensures forall d :: d in perDomain ==> perDomain[d] == ForDomains(rules, |rules|, d, d)
      ensures forall r :: r in rules && r.domain != "" ==> r.domain in perDomain
    {
      any, perDomain := [], map[];
      for n := 0 to |rules|
        invariant any == ForDomains(rules, n, "", "") && "" !in perDomain
        invariant forall d :: d in perDomain ==> perDomain[d] == ForDomains(rules, n, d, d)
        invariant forall d :: d != "" && d !in perDomain ==> ForDomains(rules, n, d, d) == []
        invariant forall k :: 0 <= k < n && rules[k].domain != "" ==> rules[k].domain in perDomain
      {
        var r := rules[n];
        if r.domain == "" {
          any := any + [r];
        } else if r.domain in perDomain {
          perDomain := perDomain[r.domain := perDomain[r.domain] + [r]];
        } else {
          perDomain := perDomain[r.domain := [r]];
        }
      }
    }

    /** Each domain's list merged with the rules without domain, in any order of the map. */
    static method MergeDomains(rules: seq<Rule>, any: seq<Rule>, perDomain: map<string, seq<Rule>>)
      returns (byDomain: map<string, seq<Rule>>)
      requires StrictlyOrdered(rules) && any == ForDomains(rules, |rules|, "", "") && "" !in perDomain
      requires forall d :: d in perDomain ==> perDomain[d] == ForDomains(rules, |rules|, d, d)
      ensures byDomain.Keys == perDomain.Keys
      ensures forall d :: d in byDomain ==> byDomain[d] == ForDomains(rules, |rules|, "", d)
    {
      byDomain := map[];
      var left := perDomain.Keys;
      while left != {}
        invariant left <= perDomain.Keys && byDomain.Keys == perDomain.Keys - left
        invariant forall d :: d in byDomain ==> byDomain[d] == ForDomains(rules, |rules|, "", d)
        decreases |left|
      {
        var d :| d in left;
        MergeRestores(rules, |rules|, d);
        var merged := MergeLists(any, perDomain[d]);
        byDomain := byDomain[d := merged];
        left := left - {d};
      }
    }

    /** The first hit in the host's candidate list is the least rule of the whole table that applies. */
    method Match(host: string, path: string) returns (r: Option<(Rule, Params)>)
      requires Valid()
      ensures LeastHit(rules, NormalizeHost(host), path, r)
    {
      var nh := NormalizeHost(host);
      var cands := anyDomain;
      if nh != "" {
        if nh in byDomain {
          cands := byDomain[nh];
        }
      }
      CandidatesServeHost(rules, nh, cands);
      FirstHitIsLeast(cands, 0, path);
      assert cands[0..] == cands;
      var pathSegs: seq<string> := [];
      for n := 0 to |cands|
        invariant FirstHit(cands, 0, path) == FirstHit(cands, n, path)
        invariant pathSegs == [] || pathSegs == SplitSegments(path)
      {
        var rule := cands[n];
        if rule.pathType == MODE && pathSegs == [] {
          pathSegs := SplitSegments(path);
        }
        var hit := MatchRoutePath(rule, path, pathSegs);
        if hit.Some? {
          return Some((rule, hit.value));
        }
      }
      return None;
    }
  }

  method MatchRoutePath(rule: Rule, path: string, pathSegs: seq<string>) returns (r: Option<Params>)
    requires rule.pathType == MODE ==> pathSegs == SplitSegments(path)
    ensures r == PathHit(rule, path)
  {
    if rule.pathType == PREFIX {
      return if MatchPrefix(rule.pathValue, path) then Some(map[]) else None;
    } else if rule.pathType == EXACT {
      return if rule.pathValue == path then Some(map[]) else None;
    } else if rule.pathType == MODE {
      r := MatchPreSegs(rule.patSegs, pathSegs);
    } else {
      return None;
    }
  }

  /** Whichever list is chosen, it is ordered and holds exactly the rules whose domain serves the host. */
  lemma CandidatesServeHost(rules: seq<Rule>, host: string, cands: seq<Rule>)
    requires StrictlyOrdered(rules)
    requires cands == ForDomains(rules, |rules|, "", host)
      || (cands == ForDomains(rules, |rules|, "", "") && forall r :: r in rules && r.domain != "" ==> r.domain != host)
    ensures StrictlyOrdered(cands)
    ensures forall x :: x in cands <==> x in rules && (x.domain == "" || x.domain == host)
  {
    assert rules[..|rules|] == rules;
    ForDomainsSound(rules, |rules|, "", host);
    ForDomainsSound(rules, |rules|, "", "");
    ForDomainsStrict(rules, |rules|, "", host);
    ForDomainsStrict(rules, |rules|, "", "");
  }

  /** There is only one right verdict, so two snapshots of the same rules answer alike, whatever the order
      the rows came in. */
  lemma LeastHitUnique(rules: seq<Rule>, others: seq<Rule>, host: string, path: string,
                       r: Option<(Rule, Params)>, q: Option<(Rule, Params)>)
    requires UniqueIds(rules) && multiset(rules) == multiset(others)
    requires LeastHit(rules, host, path, r) && LeastHit(others, host, path, q)
    ensures r == q
  {
    assert forall x :: x in rules <==> x in multiset(rules);
    assert forall x :: x in others <==> x in multiset(others);
    if r.Some? && q.Some? {
      var i :| 0 <= i < |rules| && rules[i] == r.value.0;
      var j :| 0 <= j < |rules| && rules[j] == q.value.0;
      assert NotAfter(rules[i], rules[j]) && NotAfter(rules[j], rules[i]);
    }
  }
}
