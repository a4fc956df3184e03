/** What a route table answers, told from the rows it is built of. */
module RouteMeaning {
  import opened Options
  import opened Rules
  import opened RuleTable
  import opened Text

  // ---- Segments ----

  function Join(segs: seq<string>): string {
    if segs == [] then ""
    else if |segs| == 1 then segs[0]
    else segs[0] + "/" + Join(segs[1..])
  }

  ghost predicate OnlySlashes(s: string) { forall k :: 0 <= k < |s| ==> s[k] == '/' }

  lemma {:induction false} TrimmedSlashes(p: string) returns (a: string, b: string)
    ensures OnlySlashes(a) && OnlySlashes(b) && p == a + TrimSlashes(p) + b
    ensures var t := TrimSlashes(p); t != "" ==> t[0] != '/' && t[|t| - 1] != '/'
    decreases |p|
  {
    if p != "" && p[0] == '/' {
      a, b := TrimmedSlashes(p[1..]);
      a := "/" + a;
      assert p == "/" + p[1..];
    } else if p != "" && p[|p| - 1] == '/' {
      a, b := TrimmedSlashes(p[..|p| - 1]);
      b := b + "/";
      assert p == p[..|p| - 1] + "/";
    } else {
      a, b := "", "";
    }
  }

  lemma {:induction false} SplitJoins(s: string)
    ensures Join(SplitSlash(s)) == s && forall i :: 0 <= i < |SplitSlash(s)| ==> '/' !in SplitSlash(s)[i]
  {
    var k := IndexOf(s, '/');
    if k < |s| {
      SplitJoins(s[k + 1..]);
      var rest := SplitSlash(s[k + 1..]);
      assert SplitSlash(s)[1..] == rest;
      assert s == s[..k] + "/" + s[k + 1..];
    }
  }

  /** A path is its segments joined by slashes, but for the slashes around it; no segment holds a slash. */
  lemma SegmentsMean(p: string) returns (a: string, b: string)
    ensures OnlySlashes(a) && OnlySlashes(b) && p == a + Join(SplitSegments(p)) + b
    ensures forall i :: 0 <= i < |SplitSegments(p)| ==> '/' !in SplitSegments(p)[i]
    ensures var t := Join(SplitSegments(p)); t != "" ==> t[0] != '/' && t[|t| - 1] != '/'
    ensures SplitSegments(p) == [] <==> OnlySlashes(p)
  {
    a, b := TrimmedSlashes(p);
    var t := TrimSlashes(p);
    SplitJoins(t);
    if t != "" {
      assert p[|a|] == t[0];
    }
  }

  // ---- Paths ----

  predicate Wants(seg: string, actual: string) { (seg != "" && seg[0] == ':') || seg == actual }

  /** The first k segments fit, none of them a star, and what follows them is the end or a star with something
      to take. */
  predicate FitsUpTo(pat: seq<string>, path: seq<string>, k: nat) {
    && k <= |pat| && k <= |path|
    && (k < |pat| ==> pat[k] == "*" && k < |path|)
    && forall j :: 0 <= j < k ==> pat[j] != "*" && Wants(pat[j], path[j])
  }

  /** What a stored path condition means: 1 for a prefix at segment ends, 2 for the very path, 3 for segments. */
  ghost predicate Serves(pathType: int, value: string, path: string) {
    match pathType
    case 1 => value == "/" || path == value || value + "/" <= path
    case 2 => path == value
    case 3 => exists k :: FitsUpTo(SplitSegments(value), SplitSegments(path), k)
    case _ => false
  }

  lemma FitIsFit(pat: seq<string>, path: seq<string>)
    ensures Fits(pat, path, 0) <==> exists k :: FitsUpTo(pat, path, k)
    ensures Fits(pat, path, 0) ==> FitsUpTo(pat, path, StarPlace(pat, 0))
  {
    var k := StarPlace(pat, 0);
    if Fits(pat, path, 0) {
      assert k > 0 ==> SegFits(pat, path, k - 1);
      forall j | 0 <= j < k
        ensures pat[j] != "*" && Wants(pat[j], path[j])
      {
        assert SegFits(pat, path, j);
      }
      assert FitsUpTo(pat, path, k);
    }
    if exists n :: FitsUpTo(pat, path, n) {
      var n :| FitsUpTo(pat, path, n);
      assert n == k;
    }
  }

  /** The hit's parameters: under each name the path segment at the last place that asks for it. */
  predicate Catch(pat: seq<string>, path: seq<string>, k: nat, params: Params, name: string)
    requires FitsUpTo(pat, path, k)
  {
    && (name in params <==> exists j :: 0 <= j < k && pat[j] == ":" + name)
    && forall j :: 0 <= j < k && pat[j] == ":" + name && (forall l :: j < l < k ==> pat[l] != ":" + name) ==>
         name in params && params[name] == path[j]
  }

  lemma CaughtMeans(pat: seq<string>, path: seq<string>, name: string)
    requires MatchFrom(pat, path, 0, map[]).Some?
    ensures FitsUpTo(pat, path, StarPlace(pat, 0))
    ensures Catch(pat, path, StarPlace(pat, 0), MatchFrom(pat, path, 0, map[]).value, name)
  {
    MatchMeansFit(pat, path, 0, map[]);
    FitIsFit(pat, path);
    CaughtParams(pat, path, 0, map[], name);
    forall j | 0 <= j < |pat|
      ensures Catches(pat, j, name) <==> pat[j] == ":" + name
    {
      assert pat[j] != "" ==> pat[j] == [pat[j][0]] + pat[j][1..];
    }
  }

  /** A rule made of a row hits exactly the paths its row serves; only segment rules catch parameters. */
  lemma HitMeansServes(row: RuleRow, path: string)
    ensures PathHit(Built(row), path).Some? <==> Serves(row.pathType, row.pathValue, path)
    ensures PathHit(Built(row), path).Some? && row.pathType != 3 ==> PathHit(Built(row), path) == Some(map[])
    ensures PathHit(Built(row), path).Some? && row.pathType == 3 ==>
      var (pat, segs) := (SplitSegments(row.pathValue), SplitSegments(path));
      exists k :: FitsUpTo(pat, segs, k)
        && forall name :: Catch(pat, segs, k, PathHit(Built(row), path).value, name)
  {
    PrefixAligned(row.pathValue, path);
    if row.pathType == 3 {
      var (pat, segs) := (SplitSegments(row.pathValue), SplitSegments(path));
      MatchMeansFit(pat, segs, 0, map[]);
      FitIsFit(pat, segs);
      if PathHit(Built(row), path).Some? {
        forall name
          ensures Catch(pat, segs, StarPlace(pat, 0), PathHit(Built(row), path).value, name)
        {
          CaughtMeans(pat, segs, name);
        }
      }
    }
  }

  // ---- The verdict on the rows ----

  /** The row is for this host, or for all, and its path condition serves the path. */
  ghost predicate RowApplies(row: RuleRow, host: string, path: string) {
    (row.domain == "" || ToLower(row.domain) == host) && Serves(row.pathType, row.pathValue, path)
  }

  ghost predicate IsLeast(rows: seq<RuleRow>, host: string, path: string, row: RuleRow) {
    && RowApplies(row, host, path)
    && forall other :: other in rows && RowApplies(other, host, path) ==>
         row.order < other.order || (row.order == other.order && row.id <= other.id)
  }

  /** The hit names the row and its upstream, with the parameters its path condition catches. */
  predicate Answers(row: RuleRow, path: string, hit: (Rule, Params)) {
    (hit.0.id, hit.0.upstream) == (row.id, row.upstream) && PathHit(Built(row), path) == Some(hit.1)
  }

  lemma RowsAndRules(rows: seq<RuleRow>, rules: seq<Rule>)
    requires multiset(rules) == multiset(AllBuilt(rows))
    ensures forall row :: row in rows ==> Built(row) in rules
    ensures forall rule :: rule in rules ==> exists row :: row in rows && Built(row) == rule
  {
    forall row | row in rows
      ensures Built(row) in rules
    {
      var k :| 0 <= k < |rows| && rows[k] == row;
      assert AllBuilt(rows)[k] == Built(row);
      assert Built(row) in multiset(AllBuilt(rows));
    }
    forall rule | rule in rules
      ensures exists row :: row in rows && Built(row) == rule
    {
      assert rule in multiset(AllBuilt(rows));
      var k :| 0 <= k < |rows| && AllBuilt(rows)[k] == rule;
      assert rows[k] in rows;
    }
  }

  lemma AppliesAlike(row: RuleRow, host: string, path: string)
    ensures Applies(Built(row), host, path) <==> RowApplies(row, host, path)
  {
    HitMeansServes(row, path);
  }

  /** Main result: a table built from rows sends a request to the row that applies with the smallest order, and
      of several such to the one with the smallest id; it has no answer exactly when no row applies. */
  lemma VerdictOnRows(rows: seq<RuleRow>, rules: seq<Rule>, host: string, path: string, r: Option<(Rule, Params)>)
    requires multiset(rules) == multiset(AllBuilt(rows)) && LeastHit(rules, host, path, r)
    ensures r.None? ==> forall row :: row in rows ==> !RowApplies(row, host, path)
    ensures r.Some? ==> exists row :: row in rows && IsLeast(rows, host, path, row) && Answers(row, path, r.value)
  {
    RowsAndRules(rows, rules);
    forall row | row in rows
      ensures Applies(Built(row), host, path) <==> RowApplies(row, host, path)
    {
      AppliesAlike(row, host, path);
    }
    if r.Some? {
      var row :| row in rows && Built(row) == r.value.0;
      assert forall other :: other in rows && RowApplies(other, host, path) ==> NotAfter(Built(row), Built(other));
      assert IsLeast(rows, host, path, row);
    }
  }

  // ---- Hosts ----

  lemma {:induction false} CountedTwice(s: string, c: char, i: nat, j: nat)
    requires i < j < |s| && s[i] == c && s[j] == c
    ensures CountOf(s, c) >= 2
  {
    if i > 0 {
      CountedTwice(s[1..], c, i - 1, j - 1);
    } else {
      CountedOnceAtLeast(s[1..], c, j - 1);
    }
  }

  lemma {:induction false} CountedOnceAtLeast(s: string, c: char, i: nat)
    requires i < |s| && s[i] == c
    ensures CountOf(s, c) >= 1
  {
    if i > 0 {
      CountedOnceAtLeast(s[1..], c, i - 1);
    }
  }

  lemma {:induction false} CountedExactlyOnce(s: string, c: char, i: nat)
    requires i < |s| && s[i] == c && forall k :: 0 <= k < |s| && k != i ==> s[k] != c
    ensures CountOf(s, c) == 1
  {
    assert forall k :: 0 <= k < |s| - 1 ==> s[1..][k] == s[k + 1];
    if i > 0 {
      CountedExactlyOnce(s[1..], c, i - 1);
    } else {
      NoneCounted(s[1..], c);
    }
  }

  /** What becomes of a host without outer blanks: with a bracket in front it ends at the first closing bracket,
      or is kept whole when there is none; otherwise it ends before its colon when it has exactly one, and is kept
      whole when it has none or several; and it is put in lower case. */
  lemma HostMeans(host: string, i: nat)
    requires Trimmed(host) && host != ""
    ensures host[0] == '[' && i < |host| && host[i] == ']' && (forall k :: 0 <= k < i ==> host[k] != ']') ==>
      NormalizeHost(host) == ToLower(host[..i + 1])
    ensures host[0] == '[' && ']' !in host ==> NormalizeHost(host) == ToLower(host)
    ensures host[0] != '[' && ':' !in host ==> NormalizeHost(host) == ToLower(host)
    ensures host[0] != '[' && i < |host| && host[i] == ':' && (forall k :: 0 <= k < |host| && k != i ==> host[k] != ':') ==>
      NormalizeHost(host) == ToLower(host[..i])
    ensures host[0] != '[' && i < |host| && host[i] == ':' && (exists k :: 0 <= k < |host| && k != i && host[k] == ':') ==>
      NormalizeHost(host) == ToLower(host)
  {
    TrimOfTrimmed(host);
    if host[0] != '[' {
      NoColonOrOne(host, i);
      if i < |host| && host[i] == ':' && exists k :: 0 <= k < |host| && k != i && host[k] == ':' {
        var k :| 0 <= k < |host| && k != i && host[k] == ':';
        CountedTwice(host, ':', if i < k then i else k, if i < k then k else i);
      }
    }
  }

  lemma NoColonOrOne(host: string, i: nat)
    ensures ':' !in host ==> CountOf(host, ':') == 0
    ensures i < |host| && host[i] == ':' && (forall k :: 0 <= k < |host| && k != i ==> host[k] != ':') ==>
      CountOf(host, ':') == 1 && LastIndexOf(host, ':') == i
  {
    if ':' !in host {
      NoneCounted(host, ':');
    } else if i < |host| && host[i] == ':' && forall k :: 0 <= k < |host| && k != i ==> host[k] != ':' {
      CountedExactlyOnce(host, ':', i);
      LastIndexIs(host, ':', i);
    }
  }

  /** Blanks around a host do not count, and a blank host is none. */
  lemma BlanksAreIgnored(host: string)
    ensures NormalizeHost(host) == NormalizeHost(Trim(host))
    ensures Trim(host) == "" ==> NormalizeHost(host) == ""
  {
    TrimOfTrimmed(Trim(host));
  }
}
