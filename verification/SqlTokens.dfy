/** SQL text as a list of tokens - characters, string literals, comments - and what the scanner, the stripper and
    the three splitters make of it. */
module SqlTokens {
  import opened SqlScan
  import opened SqlComments
  import opened SqlRoundTrip
  import opened Text

  /** A token. A literal's body is what it stands for: in the text its quote characters are doubled. The Open
      ones never end, and are last. A line comment may be ended by a line end, which belongs to it. */
  datatype Token =
    | Char(c: char)
    | Str(quote: char, body: string)
    | OpenStr(quote: char, body: string)
    | Dashes(body: string, ended: bool)
    | Stars(body: string)
    | OpenStars(body: string)

  lemma QuoteChars(c: char)
    ensures IsQuote(c) <==> c as int == 34 || c as int == 39 || c as int == 96
  {}

  function Doubled(body: string, q: char): string {
    if body == "" then ""
    else (if body[0] == q then [q, q] else [body[0]]) + Doubled(body[1..], q)
  }

  function Shown(t: Token): string {
    match t
    case Char(c) => [c]
    case Str(q, body) => [q] + Doubled(body, q) + [q]
    case OpenStr(q, body) => [q] + Doubled(body, q)
    case Dashes(body, ended) => "--" + body + (if ended then "\n" else "")
    case Stars(body) => "/*" + body + "*/"
    case OpenStars(body) => "/*" + body
  }

  function Rendered(ts: seq<Token>): string {
    if ts == [] then "" else Shown(ts[0]) + Rendered(ts[1..])
  }

  predicate Starts(s: string, c: char) { s != "" && s[0] == c }

  /** The end mark of a block comment stands nowhere in u, nor at its end when followed by rest. */
  predicate NoEndMark(u: string, rest: string) {
    forall k :: 0 <= k < |u| ==> !((u + rest)[k] == '*' && k + 1 < |u + rest| && (u + rest)[k + 1] == '/')
  }

  /** Followed by this text, the token is one. */
  predicate Reads(t: Token, next: string) {
    match t
    case Char(c) => !IsQuote(c) && !(c == '-' && Starts(next, '-')) && !(c == '/' && Starts(next, '*'))
    case Str(q, _) => IsQuote(q) && !Starts(next, q)
    case OpenStr(q, _) => IsQuote(q) && next == ""
    case Dashes(body, ended) => '\n' !in body && (!ended ==> next == "")
    case Stars(body) => NoEndMark(body, "*/")
    case OpenStars(body) => NoEndMark(body, "") && next == ""
  }

  predicate WellFormed(ts: seq<Token>) {
    ts == [] || (Reads(ts[0], Rendered(ts[1..])) && WellFormed(ts[1..]))
  }

  /** No block comment with a slash right behind its opening or a star right behind its end. */
  predicate Regular(ts: seq<Token>) {
    ts != [] ==>
      && (ts[0].Stars? ==> !Starts(ts[0].body, '/') && !Starts(Rendered(ts[1..]), '*'))
      && (ts[0].OpenStars? ==> !Starts(ts[0].body, '/'))
      && Regular(ts[1..])
  }

  // ---- Every text is a list of tokens ----

  /** A literal's text after its opening quote. */
  lemma {:induction false} ReadString(s: string, q: char) returns (body: string, closed: bool, rest: string)
    ensures s == Doubled(body, q) + (if closed then [q] else "") + rest
    ensures if closed then !Starts(rest, q) else rest == ""
    decreases |s|
  {
    if s == "" {
      body, closed, rest := "", false, "";
    } else if s[0] != q {
      body, closed, rest := ReadString(s[1..], q);
      body := [s[0]] + body;
      assert body[1..] + "" == body[1..];
      assert s == [s[0]] + s[1..];
    } else if |s| > 1 && s[1] == q {
      body, closed, rest := ReadString(s[2..], q);
      body := [q] + body;
      assert s == [q, q] + s[2..];
    } else {
      body, closed, rest := "", true, s[1..];
      assert s == [q] + s[1..];
    }
  }

  lemma {:induction false} ReadLine(s: string) returns (body: string, ended: bool, rest: string)
    ensures s == body + (if ended then "\n" else "") + rest && '\n' !in body
    ensures !ended ==> rest == ""
  {
    if s == "" {
      body, ended, rest := "", false, "";
    } else if s[0] == '\n' {
      body, ended, rest := "", true, s[1..];
      assert s == "\n" + s[1..];
    } else {
      body, ended, rest := ReadLine(s[1..]);
      body := [s[0]] + body;
      assert s == [s[0]] + s[1..];
    }
  }

  lemma NoEndMarkCons(c: char, u: string, rest: string)
    requires NoEndMark(u, rest) && !(c == '*' && Starts(u + rest, '/'))
    ensures NoEndMark([c] + u, rest)
  {
    assert [c] + u + rest == [c] + (u + rest);
  }

  lemma {:induction false} ReadBlock(s: string) returns (body: string, ended: bool, rest: string)
    ensures s == body + (if ended then "*/" else "") + rest
    ensures NoEndMark(body, if ended then "*/" else "")
    ensures !ended ==> rest == ""
  {
    if |s| >= 2 && s[0] == '*' && s[1] == '/' {
      body, ended, rest := "", true, s[2..];
      assert s == "*/" + s[2..];
    } else if s == "" {
      body, ended, rest := "", false, "";
    } else {
      body, ended, rest := ReadBlock(s[1..]);
      var mark := if ended then "*/" else "";
      assert s == [s[0]] + s[1..] && s[1..] == body + mark + rest;
      assert Starts(body + mark, '/') ==> s[1] == '/';
      NoEndMarkCons(s[0], body, mark);
      body := [s[0]] + body;
    }
  }

  lemma StringToken(s: string) returns (t: Token, rest: string)
    requires s != "" && IsQuote(s[0])
    ensures s == Shown(t) + rest && Reads(t, rest) && |rest| < |s|
  {
    var body, closed;
    body, closed, rest := ReadString(s[1..], s[0]);
    var d := Doubled(body, s[0]);
    assert s == [s[0]] + s[1..];
    if closed {
      t := Str(s[0], body);
      assert s == [s[0]] + (d + [s[0]] + rest) == [s[0]] + d + [s[0]] + rest;
    } else {
      t := OpenStr(s[0], body);
      assert s == [s[0]] + d;
    }
  }

  lemma DashToken(s: string) returns (t: Token, rest: string)
    requires |s| > 1 && s[0] == '-' && s[1] == '-'
    ensures s == Shown(t) + rest && Reads(t, rest) && |rest| < |s|
  {
    var body, ended;
    body, ended, rest := ReadLine(s[2..]);
    t := Dashes(body, ended);
    assert s == "--" + s[2..];
  }

  lemma StarToken(s: string) returns (t: Token, rest: string)
    requires |s| > 1 && s[0] == '/' && s[1] == '*'
    ensures s == Shown(t) + rest && Reads(t, rest) && |rest| < |s|
  {
    var body, ended;
    body, ended, rest := ReadBlock(s[2..]);
    assert s == "/*" + s[2..];
    if ended {
      t := Stars(body);
      assert s == "/*" + (body + "*/" + rest) == "/*" + body + "*/" + rest;
    } else {
      t := OpenStars(body);
      assert s == "/*" + body;
    }
  }

  lemma FirstToken(s: string) returns (t: Token, rest: string)
    requires s != ""
    ensures s == Shown(t) + rest && Reads(t, rest) && |rest| < |s|
  {
    if IsQuote(s[0]) {
      t, rest := StringToken(s);
    } else if |s| > 1 && s[0] == '-' && s[1] == '-' {
      t, rest := DashToken(s);
    } else if |s| > 1 && s[0] == '/' && s[1] == '*' {
      t, rest := StarToken(s);
    } else {
      t, rest := Char(s[0]), s[1..];
    }
  }

  /** Every text is that of a well-formed list of tokens. */
  lemma {:induction false} Tokenise(s: string) returns (ts: seq<Token>)
    ensures WellFormed(ts) && Rendered(ts) == s
    decreases |s|
  {
    if s == "" {
      ts := [];
    } else {
      var t, rest := FirstToken(s);
      var more := Tokenise(rest);
      ts := [t] + more;
      assert ts[1..] == more;
    }
  }

  // ---- The stripper ----

  function Kept(t: Token): string {
    match t
    case Dashes(_, ended) => if ended then "\n" else ""
    case Stars(_) => ""
    case OpenStars(_) => ""
    case _ => Shown(t)
  }

  function AllKept(ts: seq<Token>): string { if ts == [] then "" else Kept(ts[0]) + AllKept(ts[1..]) }

  lemma {:induction false} StringEnd(s: string, q: char, j: nat, body: string, next: string)
    requires j <= |s| && s[j..] == Doubled(body, q) + [q] + next && !Starts(next, q)
    ensures QuoteEnd(s, q, j) == j + |Doubled(body, q)| + 1
    decreases |body|
  {
    var d := Doubled(body, q);
    assert forall k :: 0 <= k < |s| - j ==> s[j + k] == (d + [q] + next)[k];
    if body != "" {
      var n := if body[0] == q then 2 else 1;
      assert s[j + n..] == s[j..][n..] == Doubled(body[1..], q) + [q] + next;
      StringEnd(s, q, j + n, body[1..], next);
    }
  }

  lemma {:induction false} StringNeverEnds(s: string, q: char, j: nat, body: string)
    requires j <= |s| && s[j..] == Doubled(body, q)
    ensures QuoteEnd(s, q, j) == |s|
    decreases |body|
  {
    var d := Doubled(body, q);
    assert forall k :: 0 <= k < |s| - j ==> s[j + k] == d[k];
    if body != "" {
      var n := if body[0] == q then 2 else 1;
      assert s[j + n..] == s[j..][n..] == Doubled(body[1..], q);
      StringNeverEnds(s, q, j + n, body[1..]);
    }
  }

  lemma {:induction false} LineEnds(s: string, j: nat, body: string, next: string)
    requires j <= |s| && s[j..] == body + next && '\n' !in body && (next == "" || next[0] == '\n')
    ensures LineEnd(s, j) == j + |body|
    decreases |body|
  {
    assert forall k :: 0 <= k < |s| - j ==> s[j + k] == (body + next)[k];
    if body != "" {
      assert s[j + 1..] == s[j..][1..] == body[1..] + next;
      LineEnds(s, j + 1, body[1..], next);
    }
  }

  lemma {:induction false} BlockEnds(s: string, j: nat, body: string, next: string)
    requires j <= |s| && s[j..] == body + "*/" + next && NoEndMark(body, "*/")
    ensures BlockEnd(s, j) == j + |body| + 2
    decreases |body|
  {
    assert forall k :: 0 <= k < |body| + 2 ==> s[j + k] == (body + "*/")[k];
    if body != "" {
      assert s[j + 1..] == s[j..][1..] == body[1..] + "*/" + next;
      assert forall k :: 0 <= k < |body| + 1 ==> (body[1..] + "*/")[k] == (body + "*/")[k + 1];
      BlockEnds(s, j + 1, body[1..], next);
    }
  }

  lemma {:induction false} BlockNeverEnds(s: string, j: nat, body: string)
    requires j <= |s| && s[j..] == body && NoEndMark(body, "")
    ensures BlockEnd(s, j) >= |s|
    decreases |body|
  {
    assert forall k :: 0 <= k < |body| ==> s[j + k] == body[k] == (body + "")[k];
    if |body| > 1 {
      assert s[j + 1..] == s[j..][1..] == body[1..];
      assert forall k :: 0 <= k < |body| - 1 ==> (body[1..] + "")[k] == (body + "")[k + 1];
      BlockNeverEnds(s, j + 1, body[1..]);
    }
  }

  /** The text from j on begins with a. */
  lemma Peel(s: string, j: nat, a: string, b: string)
    requires j <= |s| && s[j..] == a + b
    ensures j + |a| <= |s| && s[j..j + |a|] == a && s[j + |a|..] == b
    ensures forall k :: 0 <= k < |a| ==> s[j + k] == a[k]
  {
    assert s[j..][..|a|] == a && s[j..][|a|..] == b;
    assert forall k :: 0 <= k < |a| ==> s[j + k] == s[j..][k];
  }

  /** Where the stripper sees the token at position j end. */
  lemma StrEnds(s: string, j: nat, q: char, body: string, next: string)
    requires j <= |s| && s[j..] == [q] + (Doubled(body, q) + [q] + next) && IsQuote(q) && !Starts(next, q)
    ensures j < |s| && KindAt(s, j).Literal? && TokenEnd(s, j) == j + |Doubled(body, q)| + 2
  {
    Peel(s, j, [q], Doubled(body, q) + [q] + next);
    StringEnd(s, q, j + 1, body, next);
    assert s[j] == [q][0];
  }

  lemma OpenStrEnds(s: string, j: nat, q: char, body: string)
    requires j <= |s| && s[j..] == [q] + Doubled(body, q) && IsQuote(q)
    ensures j < |s| && KindAt(s, j).Literal? && TokenEnd(s, j) == |s|
  {
    Peel(s, j, [q], Doubled(body, q));
    StringNeverEnds(s, q, j + 1, body);
    assert s[j] == [q][0];
  }

  lemma DashesEnd(s: string, j: nat, body: string, after: string)
    requires j <= |s| && s[j..] == "--" + (body + after) && '\n' !in body && (after == "" || after[0] == '\n')
    ensures j < |s| && KindAt(s, j).LineComment? && TokenEnd(s, j) == j + 2 + |body|
  {
    Peel(s, j, "--", body + after);
    Peel(s, j + 2, body, after);
    assert s[j] == "--"[0] && s[j + 1] == "--"[1];
    LineEnds(s, j + 2, body, after);
    assert LineEnd(s, j) == LineEnd(s, j + 1) == LineEnd(s, j + 2);
  }

  lemma StarsEnd(s: string, j: nat, body: string, next: string)
    requires j <= |s| && s[j..] == "/*" + (body + "*/" + next) && NoEndMark(body, "*/")
    ensures j < |s| && KindAt(s, j).BlockComment? && TokenEnd(s, j) == j + |body| + 4
  {
    Peel(s, j, "/*", body + "*/" + next);
    assert s[j] == "/*"[0] && s[j + 1] == "/*"[1];
    BlockEnds(s, j + 2, body, next);
  }

  lemma OpenStarsEnd(s: string, j: nat, body: string)
    requires j <= |s| && s[j..] == "/*" + body && NoEndMark(body, "")
    ensures j < |s| && KindAt(s, j).BlockComment? && TokenEnd(s, j) == |s|
  {
    Peel(s, j, "/*", body);
    assert s[j] == "/*"[0] && s[j + 1] == "/*"[1];
    BlockNeverEnds(s, j + 2, body);
  }

  lemma CharEnds(s: string, j: nat, c: char, next: string)
    requires j <= |s| && s[j..] == [c] + next && Reads(Char(c), next)
    ensures j < |s| && KindAt(s, j).Plain? && TokenEnd(s, j) == j + 1
  {
    Peel(s, j, [c], next);
    assert s[j] == [c][0];
  }

  /** A token but for the line end of a line comment. */
  function Core(t: Token): string { if t.Dashes? then "--" + t.body else Shown(t) }

  lemma CoreEnds(s: string, j: nat, t: Token, next: string)
    requires j <= |s| && s[j..] == Shown(t) + next && Reads(t, next)
    ensures j < |s| && TokenEnd(s, j) == j + |Core(t)| && (Keeps(KindAt(s, j)) <==> t.Char? || t.Str? || t.OpenStr?)
  {
    match t {
      case Str(q, body) =>
        ShownStr(q, body, next);
        StrEnds(s, j, q, body, next);
      case OpenStr(q, body) =>
        assert Shown(t) + next == Shown(t);
        OpenStrEnds(s, j, q, body);
      case Dashes(body, ended) =>
        var after := (if ended then "\n" else "") + next;
        assert Shown(t) + next == "--" + (body + after);
        DashesEnd(s, j, body, after);
      case Stars(body) =>
        ShownStars(body, next);
        StarsEnd(s, j, body, next);
      case OpenStars(body) =>
        assert Shown(t) + next == Shown(t);
        OpenStarsEnd(s, j, body);
      case Char(c) => CharEnds(s, j, c, next);
    }
  }

  lemma ShownStr(q: char, body: string, next: string)
    ensures Shown(Str(q, body)) + next == [q] + (Doubled(body, q) + [q] + next)
    ensures |Shown(Str(q, body))| == |Doubled(body, q)| + 2
  {}

  lemma ShownStars(body: string, next: string)
    ensures Shown(Stars(body)) + next == "/*" + (body + "*/" + next)
    ensures |Shown(Stars(body))| == |body| + 4
  {}

  lemma {:induction false} QuoteEndFrom(s: string, q: char, j: nat, i: nat)
    requires j + i <= |s|
    ensures QuoteEnd(s, q, j + i) == j + QuoteEnd(s[j..], q, i)
    decreases |s| - i
  {
    if j + i < |s| {
      var n := if s[j + i] == q && j + i + 1 < |s| && s[j + i + 1] == q then 2 else 1;
      if s[j + i] != q || n == 2 {
        QuoteEndFrom(s, q, j, i + n);
      }
    }
  }

  lemma {:induction false} LineEndFrom(s: string, j: nat, i: nat)
    requires j + i <= |s|
    ensures LineEnd(s, j + i) == j + LineEnd(s[j..], i)
    decreases |s| - i
  {
    if j + i < |s| && s[j + i] != '\n' {
      LineEndFrom(s, j, i + 1);
    }
  }

  lemma {:induction false} BlockEndFrom(s: string, j: nat, i: nat)
    requires j <= |s|
    ensures BlockEnd(s, j + i) == j + BlockEnd(s[j..], i)
    decreases |s| - i
  {
    if j + i + 1 < |s| && !(s[j + i] == '*' && s[j + i + 1] == '/') {
      BlockEndFrom(s, j, i + 1);
    }
  }

  lemma TokenFrom(s: string, j: nat, i: nat)
    requires j + i < |s|
    ensures KindAt(s, j + i) == KindAt(s[j..], i) && TokenEnd(s, j + i) == j + TokenEnd(s[j..], i)
  {
    QuoteEndFrom(s, s[j + i], j, i + 1);
    LineEndFrom(s, j, i);
    BlockEndFrom(s, j, i + 2);
  }

  lemma SliceFrom(s: string, j: nat, i: nat, e: nat)
    requires i <= e && j + e <= |s|
    ensures s[j..][i..e] == s[j + i..j + e]
  {}

  lemma SameFirst(s: string, i: nat, s': string, i': nat, e: nat, e': nat)
    requires i < |s| && i' < |s'| && KindAt(s, i) == KindAt(s', i') && e == TokenEnd(s, i) && e' == TokenEnd(s', i')
    requires s[i..e] == s'[i'..e'] && Uncommented(s, e) == Uncommented(s', e')
    ensures Uncommented(s, i) == Uncommented(s', i')
  {
    UncommentedToken(s, i);
    UncommentedToken(s', i');
  }

  /** Stripping from a position on is stripping what stands from there. */
  lemma {:induction false} StripFrom(s: string, j: nat, i: nat)
    requires j + i <= |s|
    ensures Uncommented(s, j + i) == Uncommented(s[j..], i)
    decreases |s| - i
  {
    if j + i < |s| {
      var e := TokenEnd(s[j..], i);
      TokenFrom(s, j, i);
      StripFrom(s, j, e);
      SliceFrom(s, j, i, e);
      SameFirst(s, j + i, s[j..], i, j + e, e);
    }
  }

  /** The first token of a text goes out or does not, and the rest is stripped by itself. */
  lemma StripFirst(s: string, e: nat, kept: bool, rest: string)
    requires s != "" && e == TokenEnd(s, 0) && kept == Keeps(KindAt(s, 0)) && rest == s[e..]
    ensures Uncommented(s, 0) == (if kept then s[..e] else "") + Uncommented(rest, 0)
  {
    UncommentedToken(s, 0);
    StripFrom(s, e, 0);
  }

  lemma StripLineEnd(next: string)
    ensures Uncommented("\n" + next, 0) == "\n" + Uncommented(next, 0)
  {
    var s := "\n" + next;
    assert s[1..] == next && s[..1] == "\n";
    StripFirst(s, 1, true, next);
  }

  lemma Cut(a: string, b: string)
    ensures (a + b)[..|a|] == a && (a + b)[|a|..] == b
  {}

  lemma DashesCut(body: string, ended: bool, next: string)
    ensures var (t, s) := (Dashes(body, ended), Shown(Dashes(body, ended)) + next);
      s[|Core(t)|..] == (if ended then "\n" else "") + next && s[0..] == s && |s| > 0
  {
    var t := Dashes(body, ended);
    assert Shown(t) + next == Core(t) + ((if ended then "\n" else "") + next);
    Cut(Core(t), (if ended then "\n" else "") + next);
  }

  /** A token goes out as it is, or for a comment nothing but its line end. */
  lemma StripToken(t: Token, next: string)
    requires Reads(t, next)
    ensures Uncommented(Shown(t) + next, 0) == Kept(t) + Uncommented(next, 0)
  {
    var s := Shown(t) + next;
    assert s[0..] == s;
    CoreEnds(s, 0, t, next);
    if t.Dashes? {
      DashesCut(t.body, t.ended, next);
      StripFirst(s, |Core(t)|, false, (if t.ended then "\n" else "") + next);
      if t.ended {
        StripLineEnd(next);
      } else {
        assert "" + next == next;
      }
    } else {
      Cut(Shown(t), next);
      StripFirst(s, |Shown(t)|, t.Char? || t.Str? || t.OpenStr?, next);
    }
  }

  /** Main result: the stripper takes away the comments, but for the line ends of line comments, and nothing
      else; a literal stays whole, whatever stands in it. */
  lemma {:induction false} StripsTokens(ts: seq<Token>)
    requires WellFormed(ts)
    ensures Uncommented(Rendered(ts), 0) == AllKept(ts)
  {
    if ts != [] {
      StripToken(ts[0], Rendered(ts[1..]));
      StripsTokens(ts[1..]);
    }
  }

  // ---- The scanner ----

  predicate Harmless(c: char) { IsQuote(c) || c == '/' }

  /** Scanned from mode m with rest behind it, u holds nothing that a splitter takes notice of. */
  predicate Inert(u: string, rest: string, m: Mode)
    decreases |u|
  {
    u == "" ||
    var next := PeekAt(u + rest, 1);
    (!Ordinary(m, u[0], next) || Harmless(u[0])) && Inert(u[1..], rest, After(m, u[0], next))
  }

  /** The mode behind u. */
  function ModePast(u: string, rest: string, m: Mode): Mode
    decreases |u|
  {
    if u == "" then m else ModePast(u[1..], rest, After(m, u[0], PeekAt(u + rest, 1)))
  }

  lemma Ahead(u: string, rest: string)
    requires u != ""
    ensures u + rest == [u[0]] + (u[1..] + rest) && (u + rest)[0] == u[0] && (u + rest)[1..] == u[1..] + rest
    ensures PeekAt(u + rest, 1) == PeekAt(u[1..] + rest, 0)
  {}

  lemma Onward(acc: string, u: string)
    requires u != ""
    ensures acc + [u[0]] + u[1..] == acc + u
  {}

  lemma {:induction false} SplitInert(acc: string, u: string, rest: string, m: Mode)
    requires Inert(u, rest, m)
    ensures Split(acc, u + rest, m) == Split(acc + u, rest, ModePast(u, rest, m))
    decreases |u|
  {
    if u == "" {
      assert u + rest == rest && acc + u == acc;
    } else {
      Ahead(u, rest);
      Onward(acc, u);
      SplitInert(acc + [u[0]], u[1..], rest, After(m, u[0], PeekAt(u + rest, 1)));
    }
  }

  lemma {:induction false} TopInert(acc: string, u: string, rest: string, m: Mode, depth: int, sep: char)
    requires Inert(u, rest, m) && IsSeparator(sep)
    ensures SplitTop(acc, u + rest, m, depth, sep) == SplitTop(acc + u, rest, ModePast(u, rest, m), depth, sep)
    decreases |u|
  {
    if u == "" {
      assert u + rest == rest && acc + u == acc;
    } else {
      Ahead(u, rest);
      Onward(acc, u);
      TopInert(acc + [u[0]], u[1..], rest, After(m, u[0], PeekAt(u + rest, 1)), depth, sep);
    }
  }

  lemma {:induction false} ScriptInert(acc: string, u: string, rest: string, m: Mode, depth: int,
                                       starts: string -> bool)
    requires Inert(u, rest, m)
    ensures SplitScript(acc, u + rest, m, depth, starts)
         == SplitScript(acc + u, rest, ModePast(u, rest, m), depth, starts)
    decreases |u|
  {
    if u == "" {
      assert u + rest == rest && acc + u == acc;
    } else {
      Ahead(u, rest);
      Onward(acc, u);
      ScriptInert(acc + [u[0]], u[1..], rest, After(m, u[0], PeekAt(u + rest, 1)), depth, starts);
    }
  }

  /** u then v. */
  lemma {:induction false} Both(u: string, v: string, rest: string, m: Mode)
    requires Inert(u, v + rest, m) && Inert(v, rest, ModePast(u, v + rest, m))
    ensures Inert(u + v, rest, m) && ModePast(u + v, rest, m) == ModePast(v, rest, ModePast(u, v + rest, m))
    decreases |u|
  {
    if u == "" {
      assert u + v == v;
    } else {
      Ahead(u, v);
      assert u + v + rest == u + (v + rest);
      Both(u[1..], v, rest, After(m, u[0], PeekAt(u + (v + rest), 1)));
    }
  }

  lemma One(c: char, rest: string, m: Mode)
    requires !Ordinary(m, c, PeekAt(rest, 0)) || Harmless(c)
    ensures Inert([c], rest, m) && ModePast([c], rest, m) == After(m, c, PeekAt(rest, 0))
  {
    Ahead([c], rest);
    assert [c][1..] == "" && "" + rest == rest;
  }

  /** Inside a string a doubled quote is nothing special, and nothing else is. */
  lemma {:induction false} StringInert(body: string, q: Quote, rest: string)
    ensures Inert(Doubled(body, q), rest, Quoted(q, false))
    ensures ModePast(Doubled(body, q), rest, Quoted(q, false)) == Quoted(q, false)
    decreases |body|
  {
    if body != "" {
      var d := Doubled(body[1..], q);
      StringInert(body[1..], q, rest);
      if body[0] == q {
        One(q, [q] + (d + rest), Quoted(q, false));
        One(q, d + rest, Quoted(q, true));
        Both([q], [q], d + rest, Quoted(q, false));
        assert [q] + [q] == [q, q] && [q] + (d + rest) == [q] + d + rest;
        Both([q, q], d, rest, Quoted(q, false));
      } else {
        One(body[0], d + rest, Quoted(q, false));
        Both([body[0]], d, rest, Quoted(q, false));
      }
    }
  }

  lemma {:induction false} BlockInert(body: string, mark: string, after: string)
    requires NoEndMark(body, mark) && (mark == "*/" || (mark == "" && after == ""))
    ensures Inert(body, mark + after, Block) && ModePast(body, mark + after, Block) == Block
    decreases |body|
  {
    if body != "" {
      var more := body[1..] + (mark + after);
      assert body + mark == [body[0]] + (body[1..] + mark);
      assert forall k :: 0 <= k < |body[1..] + mark| ==> (body[1..] + mark)[k] == (body + mark)[k + 1];
      assert more == (body[1..] + mark) + after;
      assert if body[1..] + mark != "" then more[0] == (body + mark)[1] else more == "";
      assert NoEndMark(body[1..], mark);
      assert (body + mark)[0] == body[0];
      assert !(body[0] == '*' && PeekAt(more, 0) == Next('/'));
      BlockInert(body[1..], mark, after);
      One(body[0], more, Block);
      Both([body[0]], body[1..], mark + after, Block);
      assert [body[0]] + body[1..] == body;
    }
  }

  lemma {:induction false} LineInert(body: string, rest: string)
    requires '\n' !in body && (body != "" && body[|body| - 1] == ';' ==> rest != "" && rest[0] != '\n')
    ensures Inert(body, rest, Line) && ModePast(body, rest, Line) == Line
    decreases |body|
  {
    if body != "" {
      var more := body[1..] + rest;
      LineInert(body[1..], rest);
      assert more != "" ==> more[0] == (if |body| > 1 then body[1] else rest[0]);
      One(body[0], more, Line);
      Both([body[0]], body[1..], rest, Line);
      assert [body[0]] + body[1..] == body;
    }
  }

  lemma StrInert(q: Quote, body: string, next: string)
    requires !Starts(next, q)
    ensures Inert(Shown(Str(q, body)), next, Neutral) && ModePast(Shown(Str(q, body)), next, Neutral) == Neutral
  {
    var d := Doubled(body, q);
    One(q, d + ([q] + next), Neutral);
    StringInert(body, q, [q] + next);
    One(q, next, Quoted(q, false));
    Both(d, [q], next, Quoted(q, false));
    assert d + [q] + next == d + ([q] + next) && [q] + (d + [q]) == Shown(Str(q, body));
    Both([q], d + [q], next, Neutral);
  }

  lemma OpenStrInert(q: Quote, body: string)
    ensures Inert(Shown(OpenStr(q, body)), "", Neutral)
  {
    var d := Doubled(body, q);
    One(q, d + "", Neutral);
    StringInert(body, q, "");
    Both([q], d, "", Neutral);
  }

  /** The two characters that open a block comment. */
  lemma OpeningInert(rest: string)
    requires !Starts(rest, '/')
    ensures Inert("/*", rest, Neutral) && ModePast("/*", rest, Neutral) == Block
  {
    One('/', ['*'] + rest, Neutral);
    One('*', rest, Block);
    Both(['/'], ['*'], rest, Neutral);
    assert ['/'] + ['*'] == "/*";
  }

  lemma ClosingInert(next: string)
    requires !Starts(next, '*')
    ensures Inert("*/", next, Block) && ModePast("*/", next, Block) == Neutral
  {
    One('*', ['/'] + next, Block);
    One('/', next, Neutral);
    Both(['*'], ['/'], next, Block);
    assert ['*'] + ['/'] == "*/";
  }

  lemma StarsInert(body: string, next: string)
    requires NoEndMark(body, "*/") && !Starts(body, '/') && !Starts(next, '*')
    ensures Inert(Shown(Stars(body)), next, Neutral) && ModePast(Shown(Stars(body)), next, Neutral) == Neutral
  {
    var close := "*/";
    BlockInert(body, close, next);
    ClosingInert(next);
    Both(body, close, next, Block);
    OpeningInert(body + close + next);
    Both("/*", body + close, next, Neutral);
    assert "/*" + (body + close) == Shown(Stars(body));
  }

  lemma OpenStarsInert(body: string)
    requires NoEndMark(body, "") && !Starts(body, '/')
    ensures Inert(Shown(OpenStars(body)), "", Neutral)
  {
    assert "" + "" == "" && body + "" == body;
    BlockInert(body, "", "");
    OpeningInert(body + "");
    Both("/*", body, "", Neutral);
  }

  /** The two dashes and what follows on their line. */
  lemma DashesInert(body: string, rest: string)
    requires '\n' !in body && (body != "" && body[|body| - 1] == ';' ==> rest != "" && rest[0] != '\n')
    ensures Inert("--" + body, rest, Neutral) && ModePast("--" + body, rest, Neutral) == Line
  {
    LineInert(body, rest);
    One('-', body + rest, Line);
    One('-', ['-'] + (body + rest), Neutral);
    Both(['-'], ['-'], body + rest, Neutral);
    assert ['-'] + ['-'] == "--";
    Both("--", body, rest, Neutral);
  }

  function LineEndOf(ended: bool): string { if ended then "\n" else "" }

  /** A line comment with a ';' right before its end. */
  predicate CutsAtEnd(t: Token) { t.Dashes? && t.body != "" && t.body[|t.body| - 1] == ';' }

  /** Its text before that ';'. */
  function BeforeCut(t: Token): string
    requires CutsAtEnd(t)
  {
    "--" + t.body[..|t.body| - 1]
  }

  lemma WholeDashesInert(body: string, ended: bool, next: string)
    requires Reads(Dashes(body, ended), next) && !CutsAtEnd(Dashes(body, ended))
    ensures Inert(Shown(Dashes(body, ended)), next, Neutral)
    ensures ended ==> ModePast(Shown(Dashes(body, ended)), next, Neutral) == Neutral
  {
    DashesInert(body, LineEndOf(ended) + next);
    if ended {
      One('\n', next, Line);
      Both("--" + body, "\n", next, Neutral);
    } else {
      assert LineEndOf(ended) + next == next && "--" + body + "" == "--" + body;
    }
  }

  predicate RegularToken(t: Token, next: string) {
    && (t.Stars? ==> !Starts(t.body, '/') && !Starts(next, '*'))
    && (t.OpenStars? ==> !Starts(t.body, '/'))
  }

  /** Literals and comments are nothing to the splitters, but for a ';' right before the end of a line comment. */
  lemma TokenInert(t: Token, next: string)
    requires Reads(t, next) && RegularToken(t, next) && !t.Char? && !CutsAtEnd(t)
    ensures Inert(Shown(t), next, Neutral) && (next == "" || ModePast(Shown(t), next, Neutral) == Neutral)
  {
    match t {
      case Str(q, body) => StrInert(q, body, next);
      case OpenStr(q, body) => OpenStrInert(q, body);
      case Dashes(body, ended) => WholeDashesInert(body, ended, next);
      case Stars(body) => StarsInert(body, next);
      case OpenStars(body) => OpenStarsInert(body);
    }
  }

  // ---- The splitters ----

  /** Statements are cut at every ';' that is a character of its own, and at one right before the end of a line
      comment; acc is the statement so far. */
  function Statements(acc: string, ts: seq<Token>): seq<string>
    decreases |ts|
  {
    if ts == [] then Keep(acc)
    else if ts[0] == Char(';') then Keep(acc) + Statements("", ts[1..])
    else if CutsAtEnd(ts[0]) then
      Keep(acc + BeforeCut(ts[0])) + Statements(LineEndOf(ts[0].ended), ts[1..])
    else Statements(acc + Shown(ts[0]), ts[1..])
  }

  /** Pieces are cut at every separator that is a character of its own, outside parentheses that are. */
  function Pieces(acc: string, ts: seq<Token>, depth: int, sep: char): seq<string>
    decreases |ts|
  {
    if ts == [] then [acc]
    else if ts[0] == Char(sep) && depth == 0 then [acc] + Pieces("", ts[1..], 0, sep)
    else
      Pieces(acc + Shown(ts[0]), ts[1..],
        if ts[0] == Char('(') then depth + 1 else if ts[0] == Char(')') then depth - 1 else depth, sep)
  }

  /** A script's statements are cut outside parentheses only, and also at a line end before a line that begins a
      statement. */
  function Scripted(acc: string, ts: seq<Token>, depth: int, starts: string -> bool): seq<string>
    decreases |ts|
  {
    if ts == [] then Keep(acc)
    else if depth == 0 && (ts[0] == Char(';') || (ts[0] == Char('\n') && starts(Rendered(ts[1..])))) then
      Keep(acc) + Scripted("", ts[1..], 0, starts)
    else if depth == 0 && CutsAtEnd(ts[0]) then
      Keep(acc + BeforeCut(ts[0])) + Scripted(LineEndOf(ts[0].ended), ts[1..], 0, starts)
    else
      Scripted(acc + Shown(ts[0]), ts[1..],
        if ts[0] == Char('(') then depth + 1 else if ts[0] == Char(')') then depth - 1 else depth, starts)
  }

  lemma CharOrdinary(c: char, next: string)
    requires Reads(Char(c), next)
    ensures Ordinary(Neutral, c, PeekAt([c] + next, 1)) && After(Neutral, c, PeekAt([c] + next, 1)) == Neutral
    ensures ([c] + next)[1..] == next
  {
    Ahead([c], next);
    assert [c][1..] + next == next;
  }

  /** The text of such a line comment, cut up. */
  lemma CutText(t: Token, next: string)
    requires CutsAtEnd(t)
    ensures Shown(t) + next == BeforeCut(t) + ([';'] + (LineEndOf(t.ended) + next))
    ensures Shown(t) == BeforeCut(t) + [';'] + LineEndOf(t.ended)
  {
    assert t.body == t.body[..|t.body| - 1] + [';'];
  }

  lemma CutInert(t: Token, next: string)
    requires CutsAtEnd(t) && Reads(t, next)
    ensures var rest := [';'] + (LineEndOf(t.ended) + next);
      Inert(BeforeCut(t), rest, Neutral) && ModePast(BeforeCut(t), rest, Neutral) == Line
  {
    DashesInert(t.body[..|t.body| - 1], [';'] + (LineEndOf(t.ended) + next));
  }

  lemma AtLineEnd(ended: bool, next: string)
    requires !ended ==> next == ""
    ensures var tail := LineEndOf(ended) + next;
      && Ordinary(Line, ';', PeekAt([';'] + tail, 1)) && After(Line, ';', PeekAt([';'] + tail, 1)) == Line
      && ([';'] + tail)[1..] == tail
      && Inert(LineEndOf(ended), next, Line)
      && (ended ==> ModePast(LineEndOf(ended), next, Line) == Neutral)
  {
    Ahead([';'], LineEndOf(ended) + next);
    assert [';'][1..] + (LineEndOf(ended) + next) == LineEndOf(ended) + next;
    if ended {
      One('\n', next, Line);
    }
  }

  lemma SplitAtCut(acc: string, t: Token, next: string)
    requires CutsAtEnd(t) && Reads(t, next)
    ensures Split(acc, Shown(t) + next, Neutral)
         == Keep(acc + BeforeCut(t)) + Split(LineEndOf(t.ended), next, Neutral)
  {
    var end := LineEndOf(t.ended);
    CutText(t, next);
    CutInert(t, next);
    SplitInert(acc, BeforeCut(t), [';'] + (end + next), Neutral);
    AtLineEnd(t.ended, next);
    SplitInert("", end, next, Line);
    assert "" + end == end;
  }

  lemma SplitToken(acc: string, t: Token, next: string)
    requires Reads(t, next) && RegularToken(t, next) && t != Char(';') && !CutsAtEnd(t)
    ensures Split(acc, Shown(t) + next, Neutral) == Split(acc + Shown(t), next, Neutral)
  {
    if t.Char? {
      CharOrdinary(t.c, next);
    } else {
      TokenInert(t, next);
      SplitInert(acc, Shown(t), next, Neutral);
    }
  }

  /** Main result: a text without misleading block comments is cut into statements exactly as its tokens say. */
  lemma {:induction false} SplitsTokens(acc: string, ts: seq<Token>)
    requires WellFormed(ts) && Regular(ts)
    ensures Split(acc, Rendered(ts), Neutral) == Statements(acc, ts)
    decreases |ts|
  {
    if ts != [] {
      var t, next := ts[0], Rendered(ts[1..]);
      if t == Char(';') {
        CharOrdinary(';', next);
        SplitsTokens("", ts[1..]);
      } else if CutsAtEnd(t) {
        SplitAtCut(acc, t, next);
        SplitsTokens(LineEndOf(t.ended), ts[1..]);
      } else {
        SplitToken(acc, t, next);
        SplitsTokens(acc + Shown(t), ts[1..]);
      }
    }
  }

  // ---- Pieces between separators ----

  lemma TopAtCut(acc: string, t: Token, next: string, depth: int, sep: char)
    requires CutsAtEnd(t) && Reads(t, next) && IsSeparator(sep)
    ensures SplitTop(acc, Shown(t) + next, Neutral, depth, sep) == SplitTop(acc + Shown(t), next, Neutral, depth, sep)
  {
    var (u, end) := (BeforeCut(t), LineEndOf(t.ended));
    CutText(t, next);
    CutInert(t, next);
    TopInert(acc, u, [';'] + (end + next), Neutral, depth, sep);
    AtLineEnd(t.ended, next);
    TopInert(acc + u + [';'], end, next, Line, depth, sep);
    assert acc + u + [';'] + end == acc + (u + [';'] + end);
  }

  lemma TopToken(acc: string, t: Token, next: string, depth: int, sep: char)
    requires Reads(t, next) && RegularToken(t, next) && IsSeparator(sep) && !(t == Char(sep) && depth == 0)
    ensures SplitTop(acc, Shown(t) + next, Neutral, depth, sep)
         == SplitTop(acc + Shown(t), next, Neutral,
              if t == Char('(') then depth + 1 else if t == Char(')') then depth - 1 else depth, sep)
  {
    if t.Char? {
      CharOrdinary(t.c, next);
    } else if CutsAtEnd(t) {
      TopAtCut(acc, t, next, depth, sep);
    } else {
      TokenInert(t, next);
      TopInert(acc, Shown(t), next, Neutral, depth, sep);
    }
  }

  /** And into pieces at the separator, outside literals, comments and parentheses. */
  lemma {:induction false} TopSplitsTokens(acc: string, ts: seq<Token>, depth: int, sep: char)
    requires WellFormed(ts) && Regular(ts) && IsSeparator(sep)
    ensures SplitTop(acc, Rendered(ts), Neutral, depth, sep) == Pieces(acc, ts, depth, sep)
    decreases |ts|
  {
    if ts != [] {
      var t, next := ts[0], Rendered(ts[1..]);
      if t == Char(sep) && depth == 0 {
        CharOrdinary(sep, next);
        TopSplitsTokens("", ts[1..], 0, sep);
      } else {
        TopToken(acc, t, next, depth, sep);
        TopSplitsTokens(acc + Shown(t), ts[1..],
          if t == Char('(') then depth + 1 else if t == Char(')') then depth - 1 else depth, sep);
      }
    }
  }

  // ---- Scripts ----

  lemma ScriptToCut(acc: string, t: Token, next: string, depth: int, starts: string -> bool)
    requires CutsAtEnd(t) && Reads(t, next)
    ensures var tail := LineEndOf(t.ended) + next;
      SplitScript(acc, Shown(t) + next, Neutral, depth, starts)
      == if depth == 0 then Keep(acc + BeforeCut(t)) + SplitScript("", tail, Line, depth, starts)
         else SplitScript(acc + BeforeCut(t) + [';'], tail, Line, depth, starts)
  {
    CutText(t, next);
    CutInert(t, next);
    ScriptInert(acc, BeforeCut(t), [';'] + (LineEndOf(t.ended) + next), Neutral, depth, starts);
    AtLineEnd(t.ended, next);
  }

  lemma ScriptLineEnd(acc: string, ended: bool, next: string, depth: int, starts: string -> bool)
    requires !ended ==> next == ""
    ensures SplitScript(acc, LineEndOf(ended) + next, Line, depth, starts)
         == SplitScript(acc + LineEndOf(ended), next, Neutral, depth, starts)
  {
    AtLineEnd(ended, next);
    ScriptInert(acc, LineEndOf(ended), next, Line, depth, starts);
  }

  lemma ScriptAtCut(acc: string, t: Token, next: string, depth: int, starts: string -> bool)
    requires CutsAtEnd(t) && Reads(t, next)
    ensures SplitScript(acc, Shown(t) + next, Neutral, depth, starts)
         == if depth == 0
            then Keep(acc + BeforeCut(t)) + SplitScript(LineEndOf(t.ended), next, Neutral, depth, starts)
            else SplitScript(acc + Shown(t), next, Neutral, depth, starts)
  {
    ScriptToCut(acc, t, next, depth, starts);
    if depth == 0 {
      ScriptLineEnd("", t.ended, next, depth, starts);
      assert "" + LineEndOf(t.ended) == LineEndOf(t.ended);
    } else {
      ScriptLineEnd(acc + BeforeCut(t) + [';'], t.ended, next, depth, starts);
      CutAcc(acc, t);
    }
  }

  lemma CutAcc(acc: string, t: Token)
    requires CutsAtEnd(t)
    ensures acc + BeforeCut(t) + [';'] + LineEndOf(t.ended) == acc + Shown(t)
  {
    CutText(t, "");
    assert acc + BeforeCut(t) + [';'] + LineEndOf(t.ended) == acc + (BeforeCut(t) + [';'] + LineEndOf(t.ended));
  }

  lemma ScriptToken(acc: string, t: Token, next: string, depth: int, starts: string -> bool)
    requires Reads(t, next) && RegularToken(t, next)
    requires depth == 0 ==> t != Char(';') && !(t == Char('\n') && starts(next)) && !CutsAtEnd(t)
    ensures SplitScript(acc, Shown(t) + next, Neutral, depth, starts)
         == SplitScript(acc + Shown(t), next, Neutral,
              if t == Char('(') then depth + 1 else if t == Char(')') then depth - 1 else depth, starts)
  {
    if t.Char? {
      CharOrdinary(t.c, next);
    } else if CutsAtEnd(t) {
      ScriptAtCut(acc, t, next, depth, starts);
    } else {
      TokenInert(t, next);
      ScriptInert(acc, Shown(t), next, Neutral, depth, starts);
    }
  }

  /** And a script into its statements, at the level of no parenthesis. */
  lemma {:induction false} ScriptSplitsTokens(acc: string, ts: seq<Token>, depth: int, starts: string -> bool)
    requires WellFormed(ts) && Regular(ts)
    ensures SplitScript(acc, Rendered(ts), Neutral, depth, starts) == Scripted(acc, ts, depth, starts)
    decreases |ts|
  {
    if ts != [] {
      var t, next := ts[0], Rendered(ts[1..]);
      if depth == 0 && (t == Char(';') || (t == Char('\n') && starts(next))) {
        CharOrdinary(t.c, next);
        ScriptSplitsTokens("", ts[1..], 0, starts);
      } else if depth == 0 && CutsAtEnd(t) {
        ScriptAtCut(acc, t, next, depth, starts);
        ScriptSplitsTokens(LineEndOf(t.ended), ts[1..], 0, starts);
      } else {
        ScriptToken(acc, t, next, depth, starts);
        ScriptSplitsTokens(acc + Shown(t), ts[1..],
          if t == Char('(') then depth + 1 else if t == Char(')') then depth - 1 else depth, starts);
      }
    }
  }

  // ---- A literal, anywhere in a text ----

  lemma {:induction false} InertAt(s: string, i: nat, u: string, rest: string)
    requires i <= |s| && s[i..] == u + rest && Inert(u, rest, ModeAt(s, i))
    ensures i + |u| <= |s| && ModeAt(s, i + |u|) == ModePast(u, rest, ModeAt(s, i))
    ensures forall j :: i <= j < i + |u| ==> !CutAt(s, j)
    decreases |u|
  {
    if u != "" {
      Ahead(u, rest);
      assert s[i] == s[i..][0] && s[i + 1..] == s[i..][1..] && PeekAt(s, i + 1) == PeekAt(s[i..], 1);
      InertAt(s, i + 1, u[1..], rest);
    }
  }

  /** The stripper keeps a literal whole - its quote characters doubled inside, whatever else stands there, two
      dashes and openings of comments included. */
  lemma LiteralIsKept(q: Quote, body: string, post: string, lit: string)
    requires lit == [q] + Doubled(body, q) + [q] && !Starts(post, q)
    ensures Uncommented(lit + post, 0) == lit + Uncommented(post, 0)
  {
    StripToken(Str(q, body), post);
  }

  lemma LiteralInert(q: Quote, body: string, post: string, lit: string)
    requires lit == [q] + Doubled(body, q) + [q] && !Starts(post, q)
    ensures Inert(lit, post, Neutral) && ModePast(lit, post, Neutral) == Neutral
  {
    StrInert(q, body, post);
  }

  /** And where one stands at position i of a text, plain before it, nothing from quote to quote is a cut, and the
      scan is plain behind it, at e. */
  lemma LiteralIsWhole(s: string, i: nat, q: Quote, body: string, post: string, lit: string, e: nat)
    requires lit == [q] + Doubled(body, q) + [q] && !Starts(post, q)
    requires i <= |s| && s[i..] == lit + post && e == i + |lit| && ModeAt(s, i) == Neutral
    ensures e <= |s| && ModeAt(s, e) == Neutral && forall j :: i <= j < e ==> !CutAt(s, j)
  {
    LiteralInert(q, body, post, lit);
    InertAt(s, i, lit, post);
  }

  /** A body without its quote character stands in the literal as it is. */
  lemma {:induction false} NothingDoubled(body: string, q: char)
    requires q !in body
    ensures Doubled(body, q) == body
  {
    if body != "" {
      NothingDoubled(body[1..], q);
    }
  }

  // ---- The printed script ----

  /** The text of a statement in a printed script: trimmed, and ended with a ';' unless it brings one. */
  lemma PrintedLines(stmts: seq<string>)
    ensures stmts == [] ==> Printed(stmts) == ""
    ensures |stmts| == 1 ==>
      var s := Trim(stmts[0]); Printed(stmts) == if s != "" && s[|s| - 1] == ';' then s else s + ";"
    ensures |stmts| > 1 ==> Printed(stmts) == Printed(stmts[..1]) + "\n" + Printed(stmts[1..])
  {
    if stmts != [] {
      var all := seq(|stmts|, i requires 0 <= i < |stmts| => Terminated(Trim(stmts[i])));
      var one := seq(|stmts[..1]|, i requires 0 <= i < |stmts[..1]| => Terminated(Trim(stmts[..1][i])));
      var rest := seq(|stmts[1..]|, i requires 0 <= i < |stmts[1..]| => Terminated(Trim(stmts[1..][i])));
      assert all[1..] == rest && one == [all[0]];
    }
  }
}
