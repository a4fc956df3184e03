/** Route rules: path matching, the order in which rules are tried, and the per-host candidate lists. */
module Rules {
  import opened Options
  import opened Text

  const PREFIX := 1
  const EXACT := 2
  const MODE := 3

  datatype Rule = Rule(id: int, order: int, domain: string, pathType: int, pathValue: string,
                       patSegs: seq<string>, upstream: int)

  /** A stored rule, before it is readied for matching. */
  datatype RuleRow = RuleRow(id: int, order: int, domain: string, pathType: int, pathValue: string, upstream: int)

  /** The rule a row is readied into: domain in lower case, pattern cut into segments once. */
  function Built(row: RuleRow): Rule {
    Rule(row.id, row.order, ToLower(row.domain), row.pathType, row.pathValue,
         if row.pathType == MODE then SplitSegments(row.pathValue) else [], row.upstream)
  }

  type Params = map<string, string>

  // ---- Paths ----

  function IndexOf(s: string, c: char): (k: nat)
    ensures k <= |s| && (k < |s| ==> s[k] == c) && forall i :: 0 <= i < k ==> s[i] != c
  {
    if s == "" || s[0] == c then 0 else 1 + IndexOf(s[1..], c)
  }

  function LastIndexOf(s: string, c: char): (k: int)
    ensures -1 <= k < |s| && (k >= 0 ==> s[k] == c) && forall i :: k < i < |s| ==> s[i] != c
  {
    if s == "" then -1 else if s[|s| - 1] == c then |s| - 1 else LastIndexOf(s[..|s| - 1], c)
  }

  function CountOf(s: string, c: char): nat {
    if s == "" then 0 else (if s[0] == c then 1 else 0) + CountOf(s[1..], c)
  }

  /** The request host without port, in lower case; bracketed and bare IPv6 addresses are kept whole. */
  function NormalizeHost(host: string): string {
    var h := Trim(host);
    if h == "" then ""
    else if h[0] == '[' then
      var i := IndexOf(h, ']');
      if i < |h| then ToLower(h[..i + 1]) else ToLower(h)
    else if CountOf(h, ':') > 1 then ToLower(h)
    else
      var i := LastIndexOf(h, ':');
      ToLower(if i >= 0 then h[..i] else h)
  }

  lemma {:induction false} NoneCounted(s: string, c: char)
    requires c !in s
    ensures CountOf(s, c) == 0
  {
    if s != "" {
      NoneCounted(s[1..], c);
    }
  }

  lemma {:induction false} CountedOnce(host: string, port: string)
    requires ':' !in host && ':' !in port
    ensures CountOf(host + ":" + port, ':') == 1
  {
    if host == "" {
      assert (host + ":" + port)[1..] == port;
      NoneCounted(port, ':');
    } else {
      CountedOnce(host[1..], port);
      assert (host + ":" + port)[1..] == host[1..] + ":" + port;
    }
  }

  /** A named host means the same with any port and without, in any case. */
  lemma PortIsIgnored(host: string, port: string)
    requires host != "" && Trimmed(host) && ':' !in host && host[0] != '['
    requires ':' !in port && Trimmed(port)
    ensures NormalizeHost(host + ":" + port) == NormalizeHost(host) == ToLower(host)
  {
    var h := host + ":" + port;
    TrimOfTrimmed(h);
    TrimOfTrimmed(host);
    CountedOnce(host, port);
    NoneCounted(host, ':');
    ColonPlace(host, port, h);
    LastIndexIs(h, ':', |host|);
    assert h[0] == host[0];
  }

  lemma ColonPlace(host: string, port: string, h: string)
    requires ':' !in port && h == host + ":" + port
    ensures h[|host|] == ':' && h[..|host|] == host
    ensures forall i :: |host| < i < |h| ==> h[i] != ':'
  {
    forall i | |host| < i < |h|
      ensures h[i] != ':'
    {
      assert h[i] == port[i - |host| - 1];
    }
  }

  lemma LastIndexIs(s: string, c: char, k: nat)
    requires k < |s| && s[k] == c && forall i :: k < i < |s| ==> s[i] != c
    ensures LastIndexOf(s, c) == k
  {}

  /** A bracketed address keeps its brackets and loses whatever follows them. */
  lemma BracketsAreKept(address: string, rest: string)
    requires ']' !in address && Trimmed("[" + address + "]" + rest)
    ensures NormalizeHost("[" + address + "]" + rest) == ToLower("[" + address + "]")
  {
    var h := "[" + address + "]" + rest;
    TrimOfTrimmed(h);
    assert h[|address| + 1] == ']' && forall i :: 0 < i <= |address| ==> h[i] == address[i - 1];
    assert IndexOf(h, ']') == |address| + 1;
    assert h[..|address| + 2] == "[" + address + "]";
  }

  function MatchPrefix(prefix: string, path: string): bool {
    if prefix == "/" then true
    else if !(prefix <= path) then false
    else if |path| == |prefix| then true
    else path[|prefix|] == '/'
  }

  /** A prefix other than "/" hits itself and whatever continues it with a new segment, nothing else. */
  lemma PrefixAligned(prefix: string, path: string)
    ensures MatchPrefix(prefix, path) <==> prefix == "/" || path == prefix || prefix + "/" <= path
  {
    if prefix + "/" <= path {
      assert path[..|prefix| + 1] == prefix + "/";
      assert path[|prefix|] == (prefix + "/")[|prefix|];
      assert prefix == (prefix + "/")[..|prefix|] == path[..|prefix|];
    }
    if prefix <= path && |path| > |prefix| && path[|prefix|] == '/' {
      assert path[..|prefix| + 1] == path[..|prefix|] + [path[|prefix|]];
    }
  }

  function TrimSlashes(s: string): string
    decreases |s|
  {
    if s != "" && s[0] == '/' then TrimSlashes(s[1..])
    else if s != "" && s[|s| - 1] == '/' then TrimSlashes(s[..|s| - 1])
    else s
  }

  function SplitSlash(s: string): (r: seq<string>)
    ensures r != []
  {
    var k := IndexOf(s, '/');
    if k == |s| then [s] else [s[..k]] + SplitSlash(s[k + 1..])
  }

  /** The path's segments without the outer slashes; none for the root. */
  function SplitSegments(p: string): seq<string> {
    var t := TrimSlashes(p);
    if t == "" then [] else SplitSlash(t)
  }

  predicate IsParam(seg: string) { seg != "" && seg[0] == ':' }

  /** The verdict of the segment loop from segment i on, with the parameters caught so far. */
  function MatchFrom(pat: seq<string>, path: seq<string>, i: nat, params: Params): Option<Params>
    requires i <= |pat|
    decreases |pat| - i
  {
    if i == |pat| then Some(params)
    else if pat[i] == "*" then (if i >= |path| then None else Some(params))
    else if i >= |path| then None
    else if IsParam(pat[i]) then MatchFrom(pat, path, i + 1, params[pat[i][1..] := path[i]])
    else if pat[i] != path[i] then None
    else MatchFrom(pat, path, i + 1, params)
  }

  method MatchPreSegs(pat: seq<string>, path: seq<string>) returns (r: Option<Params>)
    ensures r == MatchFrom(pat, path, 0, map[])
  {
    var params: Params := map[];
    for i := 0 to |pat|
      invariant MatchFrom(pat, path, 0, map[]) == MatchFrom(pat, path, i, params)
    {
      var seg := pat[i];
      if seg == "*" {
        if i >= |path| {
          return None;
        }
        return Some(params);
      }
      if i >= |path| {
        return None;
      }
      if IsParam(seg) {
        params := params[seg[1..] := path[i]];
        continue;
      }
      if seg != path[i] {
        return None;
      }
    }
    return Some(params);
  }

  /** The place of the first "*" segment from i on; the pattern's length when there is none. */
  function StarPlace(pat: seq<string>, i: nat): (k: nat)
    requires i <= |pat|
    ensures i <= k <= |pat| && (k < |pat| ==> pat[k] == "*") && forall j :: i <= j < k ==> pat[j] != "*"
    decreases |pat| - i
  {
    if i == |pat| || pat[i] == "*" then i else StarPlace(pat, i + 1)
  }

  /** A path segment stands where pattern segment j wants one, and is the one it wants. */
  predicate SegFits(pat: seq<string>, path: seq<string>, j: nat)
    requires j < |pat|
  {
    j < |path| && (IsParam(pat[j]) || pat[j] == path[j])
  }

  /** What a segment pattern means: a fitting path segment for every pattern segment up to the first
      star, and one more segment for the star to take. */
  predicate Fits(pat: seq<string>, path: seq<string>, from: nat)
    requires from <= |pat|
  {
    var k := StarPlace(pat, from);
    (k < |pat| ==> k < |path|) && forall j :: from <= j < k ==> SegFits(pat, path, j)
  }

  /** The loop hits exactly the paths that fit. */
  lemma {:induction false} MatchMeansFit(pat: seq<string>, path: seq<string>, i: nat, params: Params)
    requires i <= |pat|
    ensures MatchFrom(pat, path, i, params).Some? <==> Fits(pat, path, i)
    decreases |pat| - i
  {
    if i < |pat| && pat[i] != "*" {
      assert Fits(pat, path, i) <==> SegFits(pat, path, i) && Fits(pat, path, i + 1);
      if SegFits(pat, path, i) {
        MatchMeansFit(pat, path, i + 1, if IsParam(pat[i]) then params[pat[i][1..] := path[i]] else params);
      }
    }
  }

  /** Pattern segment j catches its path segment under this name. */
  predicate Catches(pat: seq<string>, j: nat, name: string)
    requires j < |pat|
  {
    IsParam(pat[j]) && pat[j][1..] == name
  }

  /** The last place from i on, before the star, that catches the name; -1 when none does. */
  function LastCatch(pat: seq<string>, i: nat, k: nat, name: string): (j: int)
    requires i <= k <= |pat|
    ensures j == -1 || (i <= j < k && Catches(pat, j, name))
    ensures forall l :: i <= l < k && j < l ==> !Catches(pat, l, name)
  {
    if i == k then -1
    else if Catches(pat, k - 1, name) then k - 1
    else LastCatch(pat, i, k - 1, name)
  }

  lemma {:induction false} LastCatchFromNext(pat: seq<string>, i: nat, k: nat, name: string)
    requires i < k <= |pat|
    ensures LastCatch(pat, i, k, name) ==
      var j := LastCatch(pat, i + 1, k, name);
      if j == -1 && Catches(pat, i, name) then i else j
  {
    if i + 1 < k && !Catches(pat, k - 1, name) {
      LastCatchFromNext(pat, i, k - 1, name);
    }
  }

  /** A hit holds, under each name, the path segment at the name's last place before the star; names
      caught nowhere keep what they had. */
  lemma {:induction false} CaughtParams(pat: seq<string>, path: seq<string>, i: nat, params: Params, name: string)
    requires i <= |pat| && MatchFrom(pat, path, i, params).Some?
    ensures var r, j := MatchFrom(pat, path, i, params).value, LastCatch(pat, i, StarPlace(pat, i), name);
      if j >= 0 then name in r && j < |path| && r[name] == path[j]
      else (name in r <==> name in params) && (name in r ==> r[name] == params[name])
    decreases |pat| - i
  {
    if i < |pat| && pat[i] != "*" {
      LastCatchFromNext(pat, i, StarPlace(pat, i), name);
      CaughtParams(pat, path, i + 1, if IsParam(pat[i]) then params[pat[i][1..] := path[i]] else params, name);
    }
  }

  /** The path condition of a rule; unknown path types never match. */
  function PathHit(rule: Rule, path: string): Option<Params> {
    if rule.pathType == PREFIX then (if MatchPrefix(rule.pathValue, path) then Some(map[]) else None)
    else if rule.pathType == EXACT then (if rule.pathValue == path then Some(map[]) else None)
    else if rule.pathType == MODE then MatchFrom(rule.patSegs, SplitSegments(path), 0, map[])
    else None
  }
}
