/** Lists of statements printed and split again: exactly which lists come back. */
module SqlLists {
  import opened SqlComments
  import opened SqlRoundTrip
  import opened SqlScan
  import opened Text

  predicate Item(s: string) { Trimmed(s) && HasStatement(s) }

  /** What a list needs to come back: no ordinary ';' in any statement, each ending in plain text or a line
      comment - but the last may instead bring its own, swallowed ';'. */
  ghost predicate Good(stmts: seq<string>, i: nat) {
    forall c :: i <= c < |stmts| ==> Fine(stmts, c)
  }

  predicate Fine(stmts: seq<string>, c: nat)
    requires c < |stmts|
  {
    && NoCut(stmts[c], Neutral)
    && (Settled(EndMode(stmts[c], Neutral)) || (c == |stmts| - 1 && EndsInSemicolon(stmts[c])))
  }

  // ---- Statements stay statements ----

  /** A literal, or a plain character that is not blank, from token i on. */
  predicate HasReal(s: string, i: nat)
    requires i <= |s|
    decreases |s| - i
  {
    i < |s| && (RealToken(s, i) || HasReal(s, TokenEnd(s, i)))
  }

  predicate RealToken(s: string, i: nat)
    requires i < |s|
  {
    KindAt(s, i).Literal? || (KindAt(s, i).Plain? && !IsSpace(s[i]))
  }

  lemma NonBlankJoin(a: string, b: string)
    ensures NonBlank(a + b) <==> NonBlank(a) || NonBlank(b)
  {
    if NonBlank(a) {
      var k :| 0 <= k < |a| && !IsSpace(a[k]);
      assert (a + b)[k] == a[k];
    }
    if NonBlank(b) {
      var k :| 0 <= k < |b| && !IsSpace(b[k]);
      assert (a + b)[|a| + k] == b[k];
    }
  }

  lemma {:induction false} RealIsNonBlank(s: string, i: nat)
    requires i <= |s|
    ensures HasReal(s, i) <==> NonBlank(Uncommented(s, i))
    decreases |s| - i
  {
    if i < |s| {
      var e := TokenEnd(s, i);
      RealIsNonBlank(s, e);
      UncommentedToken(s, i);
      NonBlankJoin(if Keeps(KindAt(s, i)) then s[i..e] else "", Uncommented(s, e));
      if KindAt(s, i).Literal? {
        assert s[i..e][0] == s[i];
      } else if KindAt(s, i).Plain? {
        assert s[i..e] == [s[i]];
      }
    }
  }

  lemma StatementIsReal(s: string)
    ensures HasStatement(s) <==> HasReal(s, 0)
  {
    RealIsNonBlank(s, 0);
    TrimEmpty(Uncommented(s, 0));
  }

  /** Text added behind a ';', or beginning with one, takes nothing real away. */
  lemma {:induction false} RealExtends(s: string, t: string, i: nat)
    requires i <= |s| && HasReal(s, i)
    requires t == "" || t[0] == ';' || EndsInSemicolon(s)
    ensures HasReal(s + t, i)
    decreases |s| - i
  {
    var q := s + t;
    assert forall x :: 0 <= x < |s| ==> q[x] == s[x];
    if !RealToken(s, i) {
      assert q[..|s|] == s[..|s|];
      TokenAgrees(q, s, |s|, i);
      RealExtends(s, t, TokenEnd(s, i));
    }
  }

  lemma StatementExtends(s: string, t: string)
    requires HasStatement(s) && (t == "" || t[0] == ';' || EndsInSemicolon(s))
    ensures HasStatement(s + t)
  {
    StatementIsReal(s);
    StatementIsReal(s + t);
    RealExtends(s, t, 0);
  }

  // ---- Trimming ----

  lemma {:induction false} TrimLeftIs(s: string) returns (a: nat)
    ensures a <= |s| && TrimLeft(s) == s[a..] && Blank(s[..a])
  {
    if s != "" && IsSpace(s[0]) {
      var b := TrimLeftIs(s[1..]);
      a := b + 1;
      assert s[1..][b..] == s[a..];
      forall k | 0 <= k < a
        ensures IsSpace(s[..a][k])
      {
        assert k > 0 ==> s[..a][k] == s[1..][..b][k - 1];
      }
    } else {
      a := 0;
    }
  }

  lemma {:induction false} TrimRightReaches(s: string, k: nat)
    requires k < |s| && !IsSpace(s[k])
    ensures k < |TrimRight(s)| && TrimRight(s) == s[..|TrimRight(s)|]
    ensures forall x :: |TrimRight(s)| <= x < |s| ==> IsSpace(s[x])
  {
    if IsSpace(s[|s| - 1]) {
      TrimRightReaches(s[..|s| - 1], k);
    }
  }

  lemma {:induction false} TrimLeftPast(pad: string, s: string)
    requires Blank(pad) && s != "" && !IsSpace(s[0])
    ensures TrimLeft(pad + s) == s
  {
    if pad == "" {
      assert pad + s == s;
    } else {
      assert (pad + s)[1..] == pad[1..] + s;
      TrimLeftPast(pad[1..], s);
    }
  }

  // ---- Scanning by position ----

  lemma {:induction false} NoCutMeans(s: string, j: nat)
    requires j <= |s|
    ensures NoCut(s[j..], ModeAt(s, j)) <==> forall y :: j <= y < |s| ==> !CutAt(s, y)
    ensures EndMode(s[j..], ModeAt(s, j)) == ModeAt(s, |s|)
    decreases |s| - j
  {
    if j < |s| {
      NoCutMeans(s, j + 1);
      assert (forall y :: j <= y < |s| ==> !CutAt(s, y))
        <==> !CutAt(s, j) && forall y :: j + 1 <= y < |s| ==> !CutAt(s, y);
      assert s[j..][0] == s[j] && s[j..][1..] == s[j + 1..] && PeekAt(s[j..], 1) == PeekAt(s, j + 1);
    } else {
      assert s[j..] == "";
    }
  }

  /** Nothing cuts a piece but, in a line comment, a ';' at its very end. */
  ghost predicate Okay(x: string) {
    forall y :: 0 <= y < |x| && CutAt(x, y) ==> y == |x| - 1 && ModeAt(x, y) == Line
  }

  /** The scan of x within a text, from plain text on, is the scan of x. */
  lemma {:induction false} ShiftMode(s: string, b: nat, x: string, y: nat)
    requires b + |x| <= |s| && s[b..b + |x|] == x && ModeAt(s, b) == Neutral && y < |x|
    ensures ModeAt(s, b + y) == ModeAt(x, y)
  {
    if y > 0 {
      ShiftMode(s, b, x, y - 1);
      assert s[b + y - 1] == x[y - 1] && s[b + y] == x[y];
    }
  }

  lemma {:induction false} BlankScan(s: string, j: nat, k: nat)
    requires j <= k <= |s| && ModeAt(s, j) == Neutral && forall y :: j <= y < k ==> IsSpace(s[y])
    ensures ModeAt(s, k) == Neutral
  {
    if j < k {
      BlankScan(s, j, k - 1);
    }
  }

  /** Where a segment starts: in plain text, or at the line end behind a cut that ended a line comment. */
  predicate Start(s: string, j: nat)
    requires j <= |s|
  {
    ModeAt(s, j) == Neutral || (ModeAt(s, j) == Line && (j == |s| || s[j] == '\n'))
  }

  /** Blanks at a segment's start lead to plain text. */
  lemma SegmentStart(s: string, last: nat, b: nat)
    requires last <= b < |s| && Start(s, last) && !IsSpace(s[b]) && forall y :: last <= y < b ==> IsSpace(s[y])
    ensures ModeAt(s, b) == Neutral
  {
    if ModeAt(s, last) == Line {
      assert ModeAt(s, last + 1) == Neutral;
      BlankScan(s, last + 1, b);
    } else {
      BlankScan(s, last, b);
    }
  }

  lemma UncutOkay(s: string, b: nat, x: string)
    requires b + |x| <= |s| && s[b..b + |x|] == x && ModeAt(s, b) == Neutral
    requires forall y :: b <= y < b + |x| ==> !CutAt(s, y)
    ensures Okay(x)
  {
    forall y | 0 <= y < |x| && !(y == |x| - 1 && ModeAt(x, y) == Line)
      ensures !CutAt(x, y)
    {
      ShiftMode(s, b, x, y);
      assert s[b + y] == x[y] && !CutAt(s, b + y);
      if y < |x| - 1 {
        assert s[b + y + 1] == x[y + 1];
      }
    }
  }

  lemma SegmentOkay(s: string, last: nat, k: nat)
    requires last <= k <= |s| && Start(s, last) && forall y :: last <= y < k ==> !CutAt(s, y)
    ensures Okay(Trim(s[last..k]))
  {
    var seg := s[last..k];
    var a := TrimLeftIs(seg);
    var x := Trim(seg);
    var b := last + a;
    if x != "" {
      assert x == seg[a..][..|x|] == s[b..b + |x|];
      assert !IsSpace(x[0]) && x[0] == s[b];
      forall y | last <= y < b
        ensures IsSpace(s[y])
      {
        assert seg[..a][y - last] == s[y];
      }
      SegmentStart(s, last, b);
      UncutOkay(s, b, x);
    }
  }

  /** Whatever is split, every piece is of that kind. */
  lemma {:induction false} PiecesOkay(s: string, last: nat, j: nat)
    requires last <= j <= |s| && Start(s, last) && forall y :: last <= y < j ==> !CutAt(s, y)
    ensures forall x :: x in CutUp(s, last, j, ScannedCuts(s)) ==> Okay(x)
    decreases |s| - j
  {
    if j == |s| {
      SegmentOkay(s, last, j);
      assert s[last..j] == s[last..];
    } else if CutAt(s, j) {
      SegmentOkay(s, last, j);
      PiecesOkay(s, j + 1, j + 1);
    } else {
      PiecesOkay(s, last, j + 1);
    }
  }

  lemma SplitOkay(s: string)
    ensures forall x :: x in Split("", s, Neutral) ==> Okay(x)
  {
    PiecesOkay(s, 0, 0);
    SplitCutsUp(s, 0, 0);
    assert s[0..0] == "" && s[0..] == s;
  }

  // ---- A statement that swallows its end ----

  /** In a string or a block comment neither ';' nor a line end cuts or closes. */
  lemma ThroughOne(acc: string, c: char, rest: string, m: Mode)
    requires !Settled(m) && (c == ';' || c == '\n')
    ensures var m' := After(m, c, PeekAt(rest, 0));
            !Settled(m') && Split(acc, [c] + rest, m) == Split(acc + [c], rest, m')
  {
    SplitCons(acc, c, rest, m);
  }

  /** What follows a statement that ends inside a string or a block comment goes on in it. */
  lemma {:induction false} Through(acc: string, s: string, m: Mode, c: char, rest: string)
    requires NoCut(s, m) && !Settled(EndMode(s, m)) && (c == ';' || c == '\n')
    ensures Split(acc, s + ([c] + rest), m) == Split(acc + s, [c] + rest, EndMode(s, m))
    decreases |s|
  {
    var post := [c] + rest;
    if s == "" {
      assert s + post == post && acc + s == acc;
    } else {
      ThroughStep(acc, s, m, c, rest);
      Through(acc + [s[0]], s[1..], After(m, s[0], PeekAt(s, 1)), c, rest);
      assert acc + [s[0]] + s[1..] == acc + s;
    }
  }

  lemma ThroughStep(acc: string, s: string, m: Mode, c: char, rest: string)
    requires s != "" && NoCut(s, m) && !Settled(EndMode(s, m)) && (c == ';' || c == '\n')
    ensures var m' := After(m, s[0], PeekAt(s, 1));
      && NoCut(s[1..], m') && EndMode(s[1..], m') == EndMode(s, m)
      && Split(acc, s + ([c] + rest), m) == Split(acc + [s[0]], s[1..] + ([c] + rest), m')
  {
    var tail := s[1..] + ([c] + rest);
    SplitCons(acc, s[0], tail, m);
    assert s + ([c] + rest) == [s[0]] + tail;
    assert PeekAt(tail, 0) == if |s| > 1 then PeekAt(s, 1) else Next(c);
  }

  /** The first segment takes in the text up to the first cut, and at least one character inside a string
      or a block comment. */
  lemma {:induction false} HeadOf(acc: string, v: string, m: Mode) returns (u: string, rest: seq<string>)
    ensures u <= v && Split(acc, v, m) == Keep(acc + u) + rest
    ensures v != "" && !Settled(m) ==> u != ""
    decreases |v|
  {
    if v == "" {
      u, rest := "", [];
      assert acc + u == acc;
    } else {
      var next := PeekAt(v, 1);
      var m' := After(m, v[0], next);
      if v[0] == ';' && Ordinary(m, v[0], next) {
        u, rest := "", Split("", v[1..], m');
        assert acc + u == acc;
      } else {
        var w;
        w, rest := HeadOf(acc + [v[0]], v[1..], m');
        u := [v[0]] + w;
        assert acc + [v[0]] + w == acc + u;
      }
    }
  }

  lemma LongTrim(pad: string, t: string, u: string)
    requires Blank(pad) && t != "" && !IsSpace(t[0]) && u != "" && !IsSpace(u[0])
    ensures t + "\n" <= Trim(pad + t + "\n" + u)
  {
    var all := t + "\n" + u;
    assert pad + t + "\n" + u == pad + all;
    TrimLeftPast(pad, all);
    assert all[|t| + 1] == u[0];
    TrimRightReaches(all, |t| + 1);
    assert all[..|t| + 1] == t + "\n";
  }

  /** A padded text that begins with a statement and reaches past a line end stays one piece, line end and all. */
  lemma LongPiece(pad: string, t: string, u: string)
    requires Blank(pad) && t != "" && !IsSpace(t[0]) && EndsInSemicolon(t) && HasStatement(t)
    requires u != "" && !IsSpace(u[0])
    ensures |Keep(pad + t + "\n" + u)| == 1 && t + "\n" <= Keep(pad + t + "\n" + u)[0]
  {
    LongTrim(pad, t, u);
    var x := Trim(pad + t + "\n" + u);
    assert x == t + x[|t|..];
    StatementExtends(t, x[|t|..]);
  }

  lemma SwallowOwn(pad: string, s: string, v: string, m: Mode) returns (m': Mode)
    requires NoCut(s, Neutral) && m == EndMode(s, Neutral) && !Settled(m)
    ensures Split(pad, s + "\n" + v, Neutral) == Split(pad + s + "\n", v, m') && !Settled(m')
  {
    Through(pad, s, Neutral, '\n', v);
    ThroughOne(pad + s, '\n', v, m);
    m' := After(m, '\n', PeekAt(v, 0));
    assert s + "\n" + v == s + (['\n'] + v) && pad + s + ['\n'] == pad + s + "\n";
  }

  lemma SwallowAdded(pad: string, s: string, v: string, m: Mode) returns (m': Mode)
    requires NoCut(s, Neutral) && m == EndMode(s, Neutral) && !Settled(m)
    ensures Split(pad, s + ";" + "\n" + v, Neutral) == Split(pad + (s + ";") + "\n", v, m') && !Settled(m')
  {
    var line := ['\n'] + v;
    Through(pad, s, Neutral, ';', line);
    ThroughOne(pad + s, ';', line, m);
    var m0 := After(m, ';', PeekAt(line, 0));
    ThroughOne(pad + s + [';'], '\n', v, m0);
    m' := After(m0, '\n', PeekAt(v, 0));
    assert s + ";" + "\n" + v == s + ([';'] + line);
    assert pad + s + [';'] + ['\n'] == pad + (s + ";") + "\n";
  }

  /** A statement that ends inside a string or a block comment, not the last, swallows its line end. */
  lemma SwallowedHead(pad: string, s: string, v: string)
    requires Blank(pad) && Item(s) && NoCut(s, Neutral) && !Settled(EndMode(s, Neutral))
    requires v != "" && !IsSpace(v[0])
    ensures var r := Split(pad, Terminated(s) + "\n" + v, Neutral);
            r != [] && Terminated(s) + "\n" <= r[0]
  {
    var t := Terminated(s);
    StatementNotEmpty(s);
    TerminatedIsStatement(s);
    var m;
    if EndsInSemicolon(s) {
      m := SwallowOwn(pad, s, v, EndMode(s, Neutral));
    } else {
      m := SwallowAdded(pad, s, v, EndMode(s, Neutral));
    }
    var u, rest := HeadOf(pad + t + "\n", v, m);
    LongPiece(pad, t, u);
  }

  lemma TerminatedIsStatement(s: string)
    requires Item(s)
    ensures var t := Terminated(s); t != "" && !IsSpace(t[0]) && EndsInSemicolon(t) && HasStatement(t)
  {
    StatementNotEmpty(s);
    if !EndsInSemicolon(s) {
      StatementExtends(s, ";");
    }
  }

  // ---- A statement cut at its very end ----

  /** Cut nowhere but at its last ';', in a line comment. */
  ghost predicate OnlyLast(s: string) {
    && EndsInSemicolon(s) && ModeAt(s, |s| - 1) == Line
    && forall y :: 0 <= y < |s| - 1 ==> !CutAt(s, y)
  }

  lemma OkayOrUncut(s: string)
    requires Okay(s) && !NoCut(s, Neutral)
    ensures OnlyLast(s)
  {
    NoCutMeans(s, 0);
    assert s[0..] == s;
    var y :| 0 <= y < |s| && CutAt(s, y);
  }

  lemma {:induction false} ScanTo(pad: string, s: string, post: string, y: nat)
    requires y < |s| && forall x :: 0 <= x < y ==> !CutAt(s, x)
    ensures Split(pad, s + post, Neutral) == Split(pad + s[..y], s[y..] + post, ModeAt(s, y))
  {
    if y == 0 {
      assert s[0..] == s && pad + s[..0] == pad;
    } else {
      ScanTo(pad, s, post, y - 1);
      var c, rest := s[y - 1], s[y..] + post;
      SplitCons(pad + s[..y - 1], c, rest, ModeAt(s, y - 1));
      assert s[y - 1..] + post == [c] + rest;
      assert PeekAt(rest, 0) == Next(s[y]) == PeekAt(s, y) && !CutAt(s, y - 1);
      assert pad + s[..y - 1] + [c] == pad + s[..y];
    }
  }

  lemma CutLast(pad: string, s: string, post: string)
    requires OnlyLast(s) && (post == "" || post[0] == '\n')
    ensures Split(pad, s + post, Neutral) == Keep(pad + s[..|s| - 1]) + Split("", post, Line)
  {
    var n := |s| - 1;
    ScanTo(pad, s, post, n);
    SplitCons(pad + s[..n], ';', post, Line);
    assert s[n..] + post == [';'] + post;
  }

  /** What is left once the cut off end of such a statement has closed the line. */
  lemma CutLastOff(pad: string, s: string, tail: string)
    requires OnlyLast(s)
    ensures Split(pad, s, Neutral) == Keep(pad + s[..|s| - 1])
    ensures Split(pad, s + "\n" + tail, Neutral) == Keep(pad + s[..|s| - 1]) + Split("\n", tail, Neutral)
  {
    CutLast(pad, s, "");
    EmptyKept();
    assert s + "" == s;
    CutLast(pad, s, "\n" + tail);
    NextLine(tail, Line);
    assert s + ("\n" + tail) == s + "\n" + tail;
  }

  /** No statement that ends inside a string or a block comment begins it, line end included. */
  ghost predicate Doomed(s: string) {
    OnlyLast(s) && forall u :: Swallows(u) ==> !(Terminated(u) + "\n" <= s)
  }

  ghost predicate Swallows(u: string) {
    Item(u) && NoCut(u, Neutral) && !Settled(EndMode(u, Neutral))
  }

  lemma TrimmedStem(pad: string, h: string)
    requires Blank(pad) && h != "" && !IsSpace(h[0])
    ensures var x := Trim(pad + h); |x| <= |h| && x == h[..|x|] && forall k :: |x| <= k < |h| ==> IsSpace(h[k])
  {
    TrimLeftPast(pad, h);
    TrimRightReaches(h, 0);
  }

  /** What remains of a kept segment: all but blanks at its end. */
  lemma KeptOf(pad: string, s: string)
    requires Blank(pad) && Item(s) && OnlyLast(s)
    ensures var (n, x) := (|s| - 1, Trim(pad + s[..|s| - 1]));
            && |x| <= n && x == s[..|x|] && forall k :: |x| <= k < n ==> IsSpace(s[k])
  {
    var h := s[..|s| - 1];
    assert h != "";
    TrimmedStem(pad, h);
  }

  /** Dropped for want of a statement, it is doomed: a swallowing statement at its beginning would be one. */
  lemma DroppedIsDoomed(pad: string, s: string)
    requires Blank(pad) && Item(s) && OnlyLast(s) && Keep(pad + s[..|s| - 1]) == []
    ensures Doomed(s)
  {
    KeptOf(pad, s);
    var x := Trim(pad + s[..|s| - 1]);
    forall u | Swallows(u)
      ensures !(Terminated(u) + "\n" <= s)
    {
      var t := Terminated(u);
      TerminatedIsStatement(u);
      if t + "\n" <= s {
        assert s[|t|] == (t + "\n")[|t|] == '\n' && s[|t| - 1] == (t + "\n")[|t| - 1] == ';';
        assert |t| <= |x|;
        assert x == t + x[|t|..];
        StatementExtends(t, x[|t|..]);
      }
    }
  }

  /** Kept as a doomed statement, it is doomed: its blanks hold no line end, or it would not end in a comment. */
  lemma KeptDoomed(pad: string, s: string, x: string)
    requires Blank(pad) && Item(s) && OnlyLast(s) && x == Trim(pad + s[..|s| - 1]) && Doomed(x)
    ensures Doomed(s)
  {
    KeptOf(pad, s);
    NoLineEnd(s, x);
    forall u | Swallows(u)
      ensures !(Terminated(u) + "\n" <= s)
    {
      PrefixStays(Terminated(u) + "\n", s, x);
    }
  }

  lemma NoLineEnd(s: string, x: string)
    requires OnlyLast(s) && OnlyLast(x) && |x| < |s| && x == s[..|x|]
    requires forall k :: |x| <= k < |s| - 1 ==> IsSpace(s[k])
    ensures forall k :: |x| <= k < |s| ==> s[k] != '\n'
  {
    var n := |s| - 1;
    ShiftMode(s, 0, x, |x| - 1);
    assert s[|x| - 1] == ';' && ModeAt(s, |x|) == Line;
    forall k | |x| <= k < n
      ensures s[k] != '\n'
    {
      BlankLine(s, |x|, k);
      if s[k] == '\n' {
        LineLeft(s, k, n);
      }
    }
  }

  lemma PrefixStays(t: string, s: string, x: string)
    requires t != "" && t[|t| - 1] == '\n' && x <= s && forall k :: |x| <= k < |s| ==> s[k] != '\n'
    ensures t <= s ==> t <= x
  {
    if t <= s {
      assert s[|t| - 1] == t[|t| - 1];
      assert t == s[..|t|] == x[..|t|];
    }
  }

  lemma {:induction false} BlankLine(s: string, j: nat, k: nat)
    requires j <= k <= |s| && Settled(ModeAt(s, j)) && forall y :: j <= y < k ==> IsSpace(s[y])
    ensures Settled(ModeAt(s, k))
  {
    if j < k {
      BlankLine(s, j, k - 1);
    }
  }

  /** Behind a line end, blanks lead nowhere but through plain text. */
  lemma LineLeft(s: string, k: nat, n: nat)
    requires k < n < |s| && s[k] == '\n' && (ModeAt(s, k) == Line || ModeAt(s, k) == Neutral)
    requires forall y :: k <= y < n ==> IsSpace(s[y])
    ensures ModeAt(s, n) == Neutral
  {
    assert ModeAt(s, k + 1) == Neutral;
    BlankScan(s, k + 1, n);
  }

  // ---- Which lists come back ----

  ghost predicate Items(all: seq<string>) { forall c :: 0 <= c < |all| ==> Item(all[c]) && Okay(all[c]) }

  lemma PrintedOne(all: seq<string>, i: nat)
    requires i < |all| && Item(all[i])
    ensures i == |all| - 1 ==> Printed(all[i..]) == Terminated(all[i])
    ensures i < |all| - 1 ==> Printed(all[i..]) == Terminated(all[i]) + "\n" + Printed(all[i + 1..])
  {
    TrimOfTrimmed(all[i]);
    if i < |all| - 1 {
      PrintedTail(all[i..]);
      assert all[i..][1..] == all[i + 1..];
    }
  }

  lemma PrintedStarts(all: seq<string>, i: nat)
    requires i < |all| && Item(all[i])
    ensures Printed(all[i..]) != "" && !IsSpace(Printed(all[i..])[0])
  {
    PrintedOne(all, i);
    TerminatedIsStatement(all[i]);
  }

  /** How a good statement in its place is split off. */
  lemma SplitGood(all: seq<string>, i: nat, pad: string)
    requires i < |all| && Item(all[i]) && Blank(pad) && Clean(all[i])
    ensures Split(pad, Printed(all[i..]), Neutral) == [all[i]] + Split("\n", Printed(all[i + 1..]), Neutral)
  {
    PrintedOne(all, i);
    CleanIsTerminated(all[i]);
    TrimOfTrimmed(all[i]);
    if i == |all| - 1 {
      LastStatement(pad, all[i]);
      NothingToKeep("\n");
      assert Printed(all[i + 1..]) == "";
    } else {
      FirstStatement(pad, all[i], Printed(all[i + 1..]));
    }
  }

  /** And one that is cut at its very end. */
  lemma SplitOnlyLast(all: seq<string>, i: nat, pad: string)
    requires i < |all| && Item(all[i]) && Blank(pad) && OnlyLast(all[i])
    ensures Split(pad, Printed(all[i..]), Neutral)
         == Keep(pad + all[i][..|all[i]| - 1]) + Split("\n", Printed(all[i + 1..]), Neutral)
  {
    PrintedOne(all, i);
    CutLastOff(pad, all[i], Printed(all[i + 1..]));
    if i == |all| - 1 {
      NothingToKeep("\n");
      assert Printed(all[i + 1..]) == "";
    }
  }

  lemma SplitUnended(pad: string, s: string)
    requires NoCut(s, Neutral) && !Settled(EndMode(s, Neutral))
    ensures Split(pad, s + ";", Neutral) == Keep(pad + (s + ";"))
  {
    Through(pad, s, Neutral, ';', "");
    ThroughOne(pad + s, ';', "", EndMode(s, Neutral));
    assert [';'] + "" == ";" && pad + s + [';'] == pad + (s + ";");
  }

  /** The last statement, swallowing its end, makes at most one piece: itself when it brings its own ';'. */
  lemma SplitLast(all: seq<string>, pad: string)
    requires all != [] && Blank(pad) && Swallows(all[|all| - 1])
    ensures var (s, r) := (all[|all| - 1], Split(pad, Printed(all[|all| - 1..]), Neutral));
            |r| <= 1 && (r == [s] <==> EndsInSemicolon(s))
  {
    var s := all[|all| - 1];
    PrintedOne(all, |all| - 1);
    StatementNotEmpty(s);
    if EndsInSemicolon(s) {
      Uncut(pad, s, Neutral);
      TrimPadded(pad, s);
    } else {
      SplitUnended(pad, s);
      TrimPadded(pad, s + ";");
    }
  }

  /** Behind a dropped statement the pieces lag, and never catch up: position q waits for a doomed statement,
      which only a longer doomed one yields. */
  lemma {:induction false} Lag(all: seq<string>, i: nat, q: nat, pad: string)
    requires q < i <= |all| && Items(all) && Blank(pad) && forall c :: q <= c < i ==> Doomed(all[c])
    ensures Split(pad, Printed(all[i..]), Neutral) != all[q..]
    decreases |all| - i
  {
    if i == |all| {
      NothingToKeep(pad);
      assert Printed(all[i..]) == "";
    } else {
      var s, r := all[i], Split(pad, Printed(all[i..]), Neutral);
      assert all[q..][0] == all[q] && Doomed(all[q]);
      if Swallows(s) {
        LagSwallows(all, i, q, pad);
      } else if NoCut(s, Neutral) {
        SplitGood(all, i, pad);
        DoomedIsCut(all[q]);
      } else {
        OkayOrUncut(s);
        SplitOnlyLast(all, i, pad);
        LagCut(all, i, q, pad);
      }
    }
  }

  lemma DoomedIsCut(s: string)
    requires Doomed(s)
    ensures !NoCut(s, Neutral)
  {
    NoCutMeans(s, 0);
    assert s[0..] == s;
    assert CutAt(s, |s| - 1);
  }

  lemma LagSwallows(all: seq<string>, i: nat, q: nat, pad: string)
    requires q < i < |all| && Items(all) && Blank(pad) && Doomed(all[q]) && Swallows(all[i])
    ensures Split(pad, Printed(all[i..]), Neutral) != all[q..]
  {
    if i == |all| - 1 {
      SplitLast(all, pad);
    } else {
      PrintedOne(all, i);
      PrintedStarts(all, i + 1);
      SwallowedHead(pad, all[i], Printed(all[i + 1..]));
      assert all[q..][0] == all[q];
    }
  }

  lemma {:induction false} LagCut(all: seq<string>, i: nat, q: nat, pad: string)
    requires q < i < |all| && Items(all) && Blank(pad) && forall c :: q <= c < i ==> Doomed(all[c])
    requires OnlyLast(all[i])
    ensures Keep(pad + all[i][..|all[i]| - 1]) + Split("\n", Printed(all[i + 1..]), Neutral) != all[q..]
    decreases |all| - i, 1
  {
    var k, rest := Keep(pad + all[i][..|all[i]| - 1]), Split("\n", Printed(all[i + 1..]), Neutral);
    if k == [] {
      DroppedIsDoomed(pad, all[i]);
      Lag(all, i + 1, q, "\n");
      assert k + rest == rest;
    } else {
      if k[0] == all[q] {
        LagKept(all, i, q, pad, k[0]);
      }
      HeadAndRest(k, rest, all, q);
    }
  }

  lemma {:induction false} LagKept(all: seq<string>, i: nat, q: nat, pad: string, x: string)
    requires q < i < |all| && Items(all) && Blank(pad) && forall c :: q <= c < i ==> Doomed(all[c])
    requires OnlyLast(all[i]) && x == all[q] && x == Trim(pad + all[i][..|all[i]| - 1])
    ensures Split("\n", Printed(all[i + 1..]), Neutral) != all[q + 1..]
    decreases |all| - i, 0
  {
    assert Doomed(x) && Item(all[i]);
    KeptDoomed(pad, all[i], x);
    Lag(all, i + 1, q + 1, "\n");
  }

  lemma HeadAndRest(k: seq<string>, rest: seq<string>, all: seq<string>, q: nat)
    requires |k| == 1 && q < |all| && (k[0] != all[q] || rest != all[q + 1..])
    ensures k + rest != all[q..]
  {
    assert (k + rest)[0] == k[0] && (k + rest)[1..] == rest;
    assert all[q..][0] == all[q] && all[q..][1..] == all[q + 1..];
  }

  /** As long as the pieces are in place, each statement has to be fine. */
  lemma {:induction false} InPlace(all: seq<string>, i: nat, pad: string)
    requires i <= |all| && Items(all) && Blank(pad) && Split(pad, Printed(all[i..]), Neutral) == all[i..]
    ensures Good(all, i)
    decreases |all| - i
  {
    if i < |all| {
      var s := all[i];
      assert all[i..][0] == s && all[i..][1..] == all[i + 1..];
      if Swallows(s) {
        PlaceSwallows(all, i, pad);
      } else if NoCut(s, Neutral) {
        SplitGood(all, i, pad);
        InPlace(all, i + 1, "\n");
      } else {
        OkayOrUncut(s);
        SplitOnlyLast(all, i, pad);
        PlaceCut(all, i, pad);
      }
    }
  }

  lemma PlaceSwallows(all: seq<string>, i: nat, pad: string)
    requires i < |all| && Items(all) && Blank(pad) && Swallows(all[i])
    ensures Split(pad, Printed(all[i..]), Neutral) == all[i..] ==> Good(all, i)
  {
    assert all[i..][0] == all[i];
    if i == |all| - 1 {
      SplitLast(all, pad);
      assert all[i..] == [all[i]];
    } else {
      PrintedOne(all, i);
      PrintedStarts(all, i + 1);
      SwallowedHead(pad, all[i], Printed(all[i + 1..]));
    }
  }

  lemma PlaceCut(all: seq<string>, i: nat, pad: string)
    requires i < |all| && Items(all) && Blank(pad) && OnlyLast(all[i])
    ensures Keep(pad + all[i][..|all[i]| - 1]) + Split("\n", Printed(all[i + 1..]), Neutral) != all[i..]
  {
    var s := all[i];
    var k, rest := Keep(pad + s[..|s| - 1]), Split("\n", Printed(all[i + 1..]), Neutral);
    if k == [] {
      DroppedIsDoomed(pad, s);
      Lag(all, i + 1, i, "\n");
      assert k + rest == rest;
    } else {
      KeptOf(pad, s);
      assert (k + rest)[0] == k[0] && all[i..][0] == s;
    }
  }

  /** A good list comes back. */
  lemma {:induction false} GoodComesBack(all: seq<string>, i: nat, pad: string)
    requires i <= |all| && Blank(pad) && Good(all, i) && forall c :: i <= c < |all| ==> Item(all[c])
    ensures Split(pad, Printed(all[i..]), Neutral) == all[i..]
    decreases |all| - i
  {
    if i == |all| {
      NothingToKeep(pad);
      assert Printed(all[i..]) == "" && all[i..] == [];
    } else {
      assert Fine(all, i) && all[i..] == [all[i]] + all[i + 1..];
      if Settled(EndMode(all[i], Neutral)) {
        SplitGood(all, i, pad);
        GoodComesBack(all, i + 1, "\n");
      } else {
        SplitLast(all, pad);
      }
    }
  }

  /** Main result: a list of statements printed and split comes back exactly when it is good. */
  lemma ComesBackExactly(all: seq<string>)
    requires forall c :: 0 <= c < |all| ==> Item(all[c])
    ensures Split("", Printed(all), Neutral) == all <==> Good(all, 0)
  {
    assert all[0..] == all;
    if Split("", Printed(all), Neutral) == all {
      SplitOkay(Printed(all));
      assert forall c :: 0 <= c < |all| ==> all[c] in all;
      InPlace(all, 0, "");
    } else if Good(all, 0) {
      GoodComesBack(all, 0, "");
    }
  }

  /** And so for scripts: a printed script splits into the script's own statements exactly when they are good. */
  lemma ScriptComesBackExactly(txt: string, starts: string -> bool, stmts: seq<string>)
    requires stmts == SplitScript("", Trim(txt), Neutral, 0, starts)
    ensures Split("", Printed(stmts), Neutral) == stmts <==> Good(stmts, 0)
  {
    ScriptPieces("", Trim(txt), Neutral, 0, starts);
    assert forall c :: 0 <= c < |stmts| ==> stmts[c] in stmts;
    ComesBackExactly(stmts);
  }

  /** A ';' in parentheses: one statement of the script, yet not one when it is printed and split. */
  lemma ParenthesesLose(txt: string, starts: string -> bool)
    requires txt == "A(;)"
    ensures SplitScript("", Trim(txt), Neutral, 0, starts) == [txt]
    ensures Split("", Printed([txt]), Neutral) != [txt]
  {
    TrimOfTrimmed(txt);
    ParenthesesKept(txt, starts);
    CutInside(txt, txt[2..]);
    ScriptComesBackExactly(txt, starts, [txt]);
    assert !Fine([txt], 0);
  }

  /** No ';' and no line end of the text lies at the top level. */
  predicate Whole(s: string, m: Mode, depth: int)
    decreases |s|
  {
    s == "" ||
    (!(depth == 0 && (s[0] == ';' || s[0] == '\n') && Ordinary(m, s[0], PeekAt(s, 1)))
     && Whole(s[1..], After(m, s[0], PeekAt(s, 1)), DepthAfter(s, m, depth)))
  }

  lemma {:induction false} WholeIsOne(acc: string, s: string, m: Mode, depth: int, starts: string -> bool)
    requires Whole(s, m, depth)
    ensures SplitScript(acc, s, m, depth, starts) == Keep(acc + s)
    decreases |s|
  {
    if s == "" {
      assert acc + s == acc;
    } else {
      WholeIsOne(acc + [s[0]], s[1..], After(m, s[0], PeekAt(s, 1)), DepthAfter(s, m, depth), starts);
      assert acc + [s[0]] + s[1..] == acc + s;
    }
  }

  lemma ParenthesesKept(txt: string, starts: string -> bool)
    requires txt == "A(;)"
    ensures SplitScript("", txt, Neutral, 0, starts) == [txt]
  {
    assert txt[0] == 'A' && txt[|txt| - 1] == ')';
    TrimOfTrimmed(txt);
    var a, b, c := txt[1..], txt[2..], txt[3..];
    assert c[1..] == "" && Whole(c, Neutral, 1);
    assert b[1..] == c && Whole(b, Neutral, 1);
    assert a[1..] == b && Whole(a, Neutral, 0);
    assert Whole(txt, Neutral, 0);
    WholeIsOne("", txt, Neutral, 0, starts);
    assert "" + txt == txt;
    StatementIsReal(txt);
  }

  lemma CutInside(txt: string, b: string)
    requires txt == "A(;)" && b == txt[2..]
    ensures !NoCut(txt, Neutral)
  {
    assert txt[1..][1..] == b && !NoCut(b, Neutral);
    assert !NoCut(txt[1..], Neutral);
  }
}
