/** The two readings of comments side by side: the character scanner that cuts statements apart, and the
    stripper that decides whether anything is left of one. Where they agree, and where they part. */
module SqlComments {
  import opened SqlScan
  import opened Text

  // ---- Tokens, as the stripper takes them ----

  datatype Kind = Plain | Literal | LineComment | BlockComment

  predicate OpensLine(s: string, i: nat) { i + 1 < |s| && s[i] == '-' && s[i + 1] == '-' }

  predicate OpensBlock(s: string, i: nat) { i + 1 < |s| && s[i] == '/' && s[i + 1] == '*' }

  function KindAt(s: string, i: nat): Kind
    requires i < |s|
  {
    if IsQuote(s[i]) then Literal
    else if OpensLine(s, i) then LineComment
    else if OpensBlock(s, i) then BlockComment
    else Plain
  }

  function TokenEnd(s: string, i: nat): (e: nat)
    requires i < |s|
    ensures i < e <= |s|
  {
    match KindAt(s, i)
    case Literal => QuoteEnd(s, s[i], i + 1)
    case LineComment => assert LineEnd(s, i) > i; LineEnd(s, i)
    case BlockComment => if BlockEnd(s, i + 2) <= |s| then BlockEnd(s, i + 2) else |s|
    case Plain => i + 1
  }

  /** What position j belongs to, when a token starts at i. */
  function KindOf(s: string, i: nat, j: nat): Kind
    requires i <= j < |s|
    decreases |s| - i
  {
    if j < TokenEnd(s, i) then KindAt(s, i) else KindOf(s, TokenEnd(s, i), j)
  }

  predicate Commented(s: string, i: nat, j: nat)
    requires i <= j < |s|
  {
    KindOf(s, i, j).LineComment? || KindOf(s, i, j).BlockComment?
  }

  // ---- What the stripper achieves ----

  /** The characters from j on that lie outside comments, in order. */
  function Outside(s: string, i: nat, j: nat): string
    requires i <= j <= |s|
    decreases |s| - j
  {
    if j == |s| then ""
    else (if Commented(s, i, j) then "" else [s[j]]) + Outside(s, i, j + 1)
  }

  predicate Keeps(k: Kind) { k.Plain? || k.Literal? }

  lemma {:induction false} CommentLeftOut(s: string, i: nat, j: nat)
    requires i < |s| && i <= j <= TokenEnd(s, i) && !Keeps(KindAt(s, i))
    ensures Outside(s, i, j) == Outside(s, i, TokenEnd(s, i))
    decreases |s| - j
  {
    if j < TokenEnd(s, i) {
      CommentLeftOut(s, i, j + 1);
    }
  }

  lemma KeptStep(s: string, i: nat, j: nat)
    requires i <= j < |s| && j < TokenEnd(s, i) && Keeps(KindAt(s, i))
    ensures Outside(s, i, j) == [s[j]] + Outside(s, i, j + 1)
  {
    assert KindOf(s, i, j) == KindAt(s, i);
  }

  lemma HeadOff(s: string, j: nat, e: nat, end: string)
    requires j < e <= |s|
    ensures s[j..e] + end == [s[j]] + (s[j + 1..e] + end)
  {
    assert s[j..e] == [s[j]] + s[j + 1..e];
  }

  lemma {:induction false} TextKept(s: string, i: nat, j: nat)
    requires i < |s| && i <= j <= TokenEnd(s, i) && Keeps(KindAt(s, i))
    ensures Outside(s, i, j) == s[j..TokenEnd(s, i)] + Outside(s, i, TokenEnd(s, i))
    decreases |s| - j
  {
    var e := TokenEnd(s, i);
    if j < e {
      TextKept(s, i, j + 1);
      KeptStep(s, i, j);
      HeadOff(s, j, e, Outside(s, i, e));
    } else {
      assert s[j..e] == "";
    }
  }

  lemma {:induction false} OutsideNext(s: string, i: nat, j: nat)
    requires i < |s| && TokenEnd(s, i) <= j <= |s|
    ensures Outside(s, i, j) == Outside(s, TokenEnd(s, i), j)
    decreases |s| - j
  {
    if j < |s| {
      OutsideNext(s, i, j + 1);
    }
  }

  lemma UncommentedToken(s: string, i: nat)
    requires i < |s|
    ensures Uncommented(s, i)
      == (if Keeps(KindAt(s, i)) then s[i..TokenEnd(s, i)] else "") + Uncommented(s, TokenEnd(s, i))
  {
    assert KindAt(s, i).Plain? ==> s[i..TokenEnd(s, i)] == [s[i]];
  }

  /** Stripping leaves exactly the characters outside comments, string literals whole, in order. */
  lemma {:induction false} StrippedIsOutside(s: string, i: nat)
    requires i <= |s|
    ensures Uncommented(s, i) == Outside(s, i, i)
    decreases |s| - i
  {
    if i < |s| {
      var e := TokenEnd(s, i);
      UncommentedToken(s, i);
      if Keeps(KindAt(s, i)) {
        TextKept(s, i, i);
      } else {
        CommentLeftOut(s, i, i);
      }
      OutsideNext(s, i, e);
      StrippedIsOutside(s, e);
    }
  }

  /** A text has a character other than blank exactly when trimming leaves something. */
  lemma {:induction false} TrimEmpty(s: string)
    ensures Trim(s) == "" <==> forall k :: 0 <= k < |s| ==> IsSpace(s[k])
  {
    TrimLeftEmpty(s);
    var t := TrimLeft(s);
    if t != "" {
      assert TrimRight(t) != "" by {
        TrimRightKeepsFirst(t);
      }
    }
  }

  lemma {:induction false} TrimLeftEmpty(s: string)
    ensures TrimLeft(s) == "" <==> forall k :: 0 <= k < |s| ==> IsSpace(s[k])
  {
    if s != "" && IsSpace(s[0]) {
      TrimLeftEmpty(s[1..]);
      assert s == [s[0]] + s[1..];
      assert forall k :: 0 < k < |s| ==> s[k] == s[1..][k - 1];
      assert forall k :: 0 <= k < |s[1..]| ==> s[1..][k] == s[k + 1];
    }
  }

  lemma {:induction false} TrimRightKeepsFirst(s: string)
    requires s != "" && !IsSpace(s[0])
    ensures TrimRight(s) != ""
  {
    if IsSpace(s[|s| - 1]) {
      TrimRightKeepsFirst(s[..|s| - 1]);
    }
  }

  ghost predicate NonBlank(t: string) { exists k :: 0 <= k < |t| && !IsSpace(t[k]) }

  /** Some character from j on is outside comments and not blank. */
  ghost predicate RealFrom(s: string, i: nat, j: nat)
    requires i <= j
  {
    exists k :: j <= k < |s| && !Commented(s, i, k) && !IsSpace(s[k])
  }

  lemma NonBlankCons(c: char, rest: string)
    ensures NonBlank([c] + rest) <==> !IsSpace(c) || NonBlank(rest)
  {
    var all := [c] + rest;
    assert all[0] == c;
    if NonBlank(rest) {
      var k :| 0 <= k < |rest| && !IsSpace(rest[k]);
      assert all[k + 1] == rest[k];
    }
    if NonBlank(all) && IsSpace(c) {
      var k :| 0 <= k < |all| && !IsSpace(all[k]);
      assert rest[k - 1] == all[k];
    }
  }

  lemma {:induction false} OutsideNonBlank(s: string, i: nat, j: nat)
    requires i <= j <= |s|
    ensures NonBlank(Outside(s, i, j)) <==> RealFrom(s, i, j)
    decreases |s| - j
  {
    if j < |s| {
      OutsideNonBlank(s, i, j + 1);
      NonBlankCons(s[j], Outside(s, i, j + 1));
      assert RealFrom(s, i, j) <==> (!Commented(s, i, j) && !IsSpace(s[j])) || RealFrom(s, i, j + 1);
      assert "" + Outside(s, i, j + 1) == Outside(s, i, j + 1);
    }
  }

  /** A segment holds a statement exactly when some character outside its comments is not blank. */
  lemma HasStatementMeans(s: string)
    ensures HasStatement(s) <==> RealFrom(s, 0, 0)
  {
    StrippedIsOutside(s, 0);
    OutsideNonBlank(s, 0, 0);
    TrimEmpty(Uncommented(s, 0));
  }

  // ---- Where the scanner cuts ----

  /** The scanner's mode before position j. */
  function ModeAt(s: string, j: nat): Mode
    requires j <= |s|
  {
    if j == 0 then Neutral else After(ModeAt(s, j - 1), s[j - 1], PeekAt(s, j))
  }

  predicate CutAt(s: string, j: nat)
    requires j < |s|
  {
    s[j] == ';' && Ordinary(ModeAt(s, j), ';', PeekAt(s, j + 1))
  }

  /** A ';' outside literals and comments, or one that ends the line of a line comment. */
  predicate RealCut(s: string, i: nat, j: nat)
    requires i <= j < |s|
  {
    s[j] == ';' && (KindOf(s, i, j).Plain? || (KindOf(s, i, j).LineComment? && (j + 1 == |s| || s[j + 1] == '\n')))
  }

  /** Cut at the given places: pieces of s from last on, position j reached. */
  ghost function CutUp(s: string, last: nat, j: nat, cut: nat -> bool): seq<string>
    requires last <= j <= |s|
    decreases |s| - j
  {
    if j == |s| then Keep(s[last..])
    else if cut(j) then Keep(s[last..j]) + CutUp(s, j + 1, j + 1, cut)
    else CutUp(s, last, j + 1, cut)
  }

  ghost function ScannedCuts(s: string): nat -> bool { (j: nat) => j < |s| && CutAt(s, j) }

  ghost function RealCuts(s: string): nat -> bool { (j: nat) => j < |s| && RealCut(s, 0, j) }

  /** The splitter cuts exactly where the scanner finds an ordinary ';'. */
  lemma {:induction false} SplitCutsUp(s: string, last: nat, j: nat)
    requires last <= j <= |s|
    ensures Split(s[last..j], s[j..], ModeAt(s, j)) == CutUp(s, last, j, ScannedCuts(s))
    decreases |s| - j
  {
    if j < |s| {
      SplitStep(s[last..j], s, j, ModeAt(s, j));
      if CutAt(s, j) {
        SplitCutsUp(s, j + 1, j + 1);
        assert s[j + 1..j + 1] == "";
      } else {
        SplitCutsUp(s, last, j + 1);
        assert s[last..j] + [s[j]] == s[last..j + 1];
      }
    } else {
      assert s[last..j] == s[last..];
    }
  }

  lemma {:induction false} SameCuts(s: string, last: nat, j: nat, cut: nat -> bool, other: nat -> bool)
    requires last <= j <= |s| && forall k :: j <= k < |s| ==> cut(k) == other(k)
    ensures CutUp(s, last, j, cut) == CutUp(s, last, j, other)
    decreases |s| - j
  {
    if j < |s| {
      SameCuts(s, if cut(j) then j + 1 else last, j + 1, cut, other);
    }
  }

  // ---- Where the two part ----

  /** A block comment the scanner does not take as the stripper does. Either a slash follows its opening, and
      the scanner takes opening star and slash for an end; or a star follows its end, and the scanner takes
      the closing slash and that star for another opening. */
  predicate MisreadAt(s: string, i: nat)
    requires i < |s|
  {
    KindAt(s, i).BlockComment? && (ClosesAtOnce(s, i) || Reopens(s, i))
  }

  predicate ClosesAtOnce(s: string, i: nat) { i + 2 < |s| && s[i + 2] == '/' }

  predicate Reopens(s: string, i: nat) { BlockEnd(s, i + 2) < |s| && s[BlockEnd(s, i + 2)] == '*' }

  predicate Misread(s: string, i: nat)
    requires i <= |s|
    decreases |s| - i
  {
    i < |s| && (MisreadAt(s, i) || Misread(s, TokenEnd(s, i)))
  }

  /** At a token's start the scanner is in plain text, or about to leave a line comment at its line end. */
  predicate InStep(s: string, i: nat)
    requires i <= |s|
  {
    ModeAt(s, i) == Neutral || (ModeAt(s, i) == Line && i < |s| && s[i] == '\n')
  }

  lemma {:induction false} LiteralScanned(s: string, q: Quote, k: nat, j: nat)
    requires k <= |s| && ModeAt(s, k) == Quoted(q, false) && k <= j <= QuoteEnd(s, q, k)
    ensures j < QuoteEnd(s, q, k) ==> ModeAt(s, j).Quoted?
    ensures j == QuoteEnd(s, q, k) < |s| ==> ModeAt(s, j) == Neutral
    decreases |s| - k
  {
    if k < |s| && s[k] != q {
      if k < j {
        LiteralScanned(s, q, k + 1, j);
      }
    } else if k + 1 < |s| && s[k + 1] == q {
      assert ModeAt(s, k + 1) == Quoted(q, true);
      assert ModeAt(s, k + 2) == Quoted(q, false);
      if k + 1 < j {
        LiteralScanned(s, q, k + 2, j);
      }
    }
  }

  lemma {:induction false} LineScanned(s: string, k: nat, j: nat)
    requires k <= |s| && ModeAt(s, k) == Line && k <= j <= LineEnd(s, k)
    ensures ModeAt(s, j) == Line
    decreases |s| - k
  {
    if k < j {
      LineScanned(s, k + 1, j);
    }
  }

  lemma {:induction false} BlockScanned(s: string, k: nat, j: nat)
    requires k <= |s| && ModeAt(s, k) == Block && k <= j < BlockEnd(s, k) && j <= |s|
    ensures ModeAt(s, j) == if j + 1 == BlockEnd(s, k) && BlockEnd(s, k) <= |s| then Neutral else Block
    decreases |s| - k
  {
    if k < j {
      if k + 1 < |s| && !(s[k] == '*' && s[k + 1] == '/') {
        BlockScanned(s, k + 1, j);
      }
    }
  }

  lemma {:induction false} LineEndIs(s: string, k: nat)
    requires k <= |s|
    ensures LineEnd(s, k) < |s| ==> s[LineEnd(s, k)] == '\n'
    decreases |s| - k
  {
    if k < |s| && s[k] != '\n' {
      LineEndIs(s, k + 1);
    }
  }

  /** A block comment that ends does so with star and slash. */
  lemma {:induction false} BlockEndIs(s: string, k: nat)
    ensures k + 2 <= BlockEnd(s, k)
    ensures BlockEnd(s, k) <= |s| ==> s[BlockEnd(s, k) - 2] == '*' && s[BlockEnd(s, k) - 1] == '/'
    decreases |s| - k
  {
    if k + 1 < |s| && !(s[k] == '*' && s[k + 1] == '/') {
      BlockEndIs(s, k + 1);
    }
  }

  /** One token read: the scanner cuts in it where it should, and is in step after it. */
  lemma TokenRead(s: string, i: nat, j: nat)
    requires i < |s| && InStep(s, i) && !MisreadAt(s, i) && i <= j < TokenEnd(s, i)
    ensures CutAt(s, j) <==> RealCut(s, i, j)
  {
    match KindAt(s, i)
    case Literal =>
      if i < j {
        LiteralScanned(s, s[i], i + 1, j);
      }
    case LineComment =>
      if i < j {
        LineScanned(s, i + 1, j);
      }
    case BlockComment =>
      BlockEndIs(s, i + 2);
      if i + 2 <= j {
        BlockScanned(s, i + 2, j);
      }
    case Plain =>
  }

  lemma InStepAfter(s: string, i: nat)
    requires i < |s| && InStep(s, i) && !MisreadAt(s, i) && TokenEnd(s, i) < |s|
    ensures InStep(s, TokenEnd(s, i))
  {
    var e := TokenEnd(s, i);
    match KindAt(s, i)
    case Literal => LiteralScanned(s, s[i], i + 1, e);
    case LineComment =>
      LineEndIs(s, i);
      LineScanned(s, i + 1, e);
    case BlockComment =>
      BlockEndIs(s, i + 2);
      BlockScanned(s, i + 2, e - 1);
    case Plain =>
  }

  /** Without a misread comment ahead, every cut from i on is a real one and every real one is cut. */
  lemma {:induction false} ReadAlike(s: string, i: nat, j: nat)
    requires i <= j < |s| && InStep(s, i) && !Misread(s, i)
    ensures CutAt(s, j) <==> RealCut(s, i, j)
    decreases |s| - i
  {
    if j < TokenEnd(s, i) {
      TokenRead(s, i, j);
    } else {
      InStepAfter(s, i);
      ReadAlike(s, TokenEnd(s, i), j);
    }
  }

  /** Main result for the splitter: a text without misread comments is cut at its real ';' and nowhere else. */
  lemma SplitsAtRealCuts(s: string)
    requires !Misread(s, 0)
    ensures Split("", s, Neutral) == CutUp(s, 0, 0, RealCuts(s))
  {
    SplitCutsUp(s, 0, 0);
    assert s[0..0] == "" && s[0..] == s;
    forall k: nat | k < |s|
      ensures ScannedCuts(s)(k) == RealCuts(s)(k)
    {
      ReadAlike(s, 0, k);
    }
    SameCuts(s, 0, 0, ScannedCuts(s), RealCuts(s));
  }

  // ---- And exactly there ----

  /** The first j characters of s with a ';' put after them. */
  function Ended(s: string, j: nat): string
    requires j <= |s|
  {
    s[..j] + ";"
  }

  /** A ';' put after the first j characters is cut exactly when it is a real one. */
  predicate ReadRight(s: string, j: nat)
    requires j <= |s|
  {
    CutAt(Ended(s, j), j) <==> RealCut(Ended(s, j), 0, j)
  }

  /** Two texts with the first j characters in common. */
  ghost predicate Agree(s: string, q: string, j: nat) {
    j <= |s| && j <= |q| && s[..j] == q[..j]
  }

  lemma {:induction false} QuoteEndAgrees(s: string, q: string, j: nat, c: char, k: nat)
    requires Agree(s, q, j) && k <= j && QuoteEnd(q, c, k) < j
    ensures QuoteEnd(s, c, k) == QuoteEnd(q, c, k)
    decreases |q| - k
  {
    assert forall x :: 0 <= x < j ==> s[x] == s[..j][x] == q[x];
    if q[k] != c {
      QuoteEndAgrees(s, q, j, c, k + 1);
    } else if k + 1 < |q| && q[k + 1] == c {
      QuoteEndAgrees(s, q, j, c, k + 2);
    }
  }

  lemma {:induction false} LineEndAgrees(s: string, q: string, j: nat, k: nat)
    requires Agree(s, q, j) && k <= j && LineEnd(q, k) < j
    ensures LineEnd(s, k) == LineEnd(q, k)
    decreases |q| - k
  {
    assert forall x :: 0 <= x < j ==> s[x] == s[..j][x] == q[x];
    if q[k] != '\n' {
      LineEndAgrees(s, q, j, k + 1);
    }
  }

  lemma {:induction false} BlockEndAgrees(s: string, q: string, j: nat, k: nat)
    requires Agree(s, q, j) && BlockEnd(q, k) <= j
    ensures BlockEnd(s, k) == BlockEnd(q, k)
    decreases |q| - k
  {
    assert forall x :: 0 <= x < j ==> s[x] == s[..j][x] == q[x];
    BlockEndIs(q, k);
    if !(q[k] == '*' && q[k + 1] == '/') {
      BlockEndAgrees(s, q, j, k + 1);
    }
  }

  /** A token that ends before the texts part is the same in both. */
  lemma TokenAgrees(s: string, q: string, j: nat, i: nat)
    requires Agree(s, q, j) && i < |q| && TokenEnd(q, i) < j
    ensures KindAt(s, i) == KindAt(q, i) && TokenEnd(s, i) == TokenEnd(q, i)
  {
    assert forall x :: 0 <= x < j ==> s[x] == s[..j][x] == q[x];
    match KindAt(q, i)
    case Literal => QuoteEndAgrees(s, q, j, q[i], i + 1);
    case LineComment => LineEndAgrees(s, q, j, i);
    case BlockComment => BlockEndAgrees(s, q, j, i + 2);
    case Plain =>
  }

  /** A text read right as far as it goes has no misread comment in its beginnings. */
  lemma {:induction false} MisreadGrows(s: string, j: nat, i: nat)
    requires i <= j <= |s| && Misread(Ended(s, j), i)
    ensures Misread(s, i)
    decreases |s| - i
  {
    var q := Ended(s, j);
    assert Agree(s, q, j);
    assert forall x :: 0 <= x < j ==> q[x] == s[x];
    if i < j {
      var e := TokenEnd(q, i);
      if MisreadAt(q, i) {
        BlockEndIs(q, i + 2);
        if !ClosesAtOnce(q, i) {
          BlockEndAgrees(s, q, j, i + 2);
        }
      } else if e < j {
        TokenAgrees(s, q, j, i);
        MisreadGrows(s, j, e);
      } else {
        LastIsPlain(s, j, e);
      }
    } else {
      LastIsPlain(s, j, i);
    }
  }

  lemma LastIsPlain(s: string, j: nat, e: nat)
    requires j <= |s| && j <= e <= j + 1
    ensures !Misread(Ended(s, j), e)
  {
    assert Ended(s, j)[j] == ';';
  }

  /** The first misread comment. */
  function FirstMisread(s: string, i: nat): (m: nat)
    requires i <= |s| && Misread(s, i)
    ensures i <= m < |s| && MisreadAt(s, m)
    decreases |s| - i
  {
    if MisreadAt(s, i) then i else FirstMisread(s, TokenEnd(s, i))
  }

  /** Up to the first misread comment another text with the same beginning is read in step, token by token. */
  lemma {:induction false} ReachMisread(s: string, q: string, j: nat, i: nat, x: nat)
    requires i <= |s| && Misread(s, i) && FirstMisread(s, i) + 3 <= j && Agree(s, q, j) && InStep(q, i)
    requires FirstMisread(s, i) <= x < |q|
    ensures InStep(q, FirstMisread(s, i)) && KindOf(q, i, x) == KindOf(q, FirstMisread(s, i), x)
    decreases |s| - i
  {
    assert forall y :: 0 <= y < j ==> s[y] == s[..j][y] == q[y];
    if !MisreadAt(s, i) {
      var e := TokenEnd(s, i);
      TokenAgrees(q, s, j, i);
      assert !MisreadAt(q, i) by {
        if KindAt(q, i).BlockComment? {
          BlockEndAgrees(q, s, j, i + 2);
        }
      }
      InStepAfter(q, i);
      ReachMisread(s, q, j, e, x);
    }
  }

  /** A ';' just after the misread spot is read wrong. */
  lemma MisreadShows(s: string)
    requires Misread(s, 0)
    ensures exists j :: 0 <= j <= |s| && !ReadRight(s, j)
  {
    var m := FirstMisread(s, 0);
    MisreadThere(s, m, SpotOf(s, m));
  }

  /** The place just after a misread comment's misleading character. */
  function SpotOf(s: string, m: nat): (j: nat)
    requires m < |s| && MisreadAt(s, m)
    ensures m + 3 <= j <= |s|
  {
    BlockEndIs(s, m + 2);
    if ClosesAtOnce(s, m) then m + 3 else BlockEnd(s, m + 2) + 1
  }

  lemma MisreadThere(s: string, m: nat, j: nat)
    requires Misread(s, 0) && m == FirstMisread(s, 0) && j == SpotOf(s, m)
    ensures !ReadRight(s, j)
  {
    var q := Ended(s, j);
    assert forall x :: 0 <= x < j ==> q[x] == s[x];
    ReachMisread(s, q, j, 0, j);
    if ClosesAtOnce(s, m) {
      OpeningShows(q, m);
    } else {
      BlockEndAgrees(q, s, j, m + 2);
      EndShows(q, m);
    }
  }

  lemma OpeningShows(q: string, m: nat)
    requires |q| == m + 4 && InStep(q, m) && q[m] == '/' && q[m + 1] == '*' && q[m + 2] == '/' && q[m + 3] == ';'
    ensures CutAt(q, m + 3) && KindOf(q, m, m + 3).BlockComment?
  {
    assert ModeAt(q, m + 1) == Block && ModeAt(q, m + 2) == Neutral && ModeAt(q, m + 3) == Neutral;
    assert BlockEnd(q, m + 3) > |q| && BlockEnd(q, m + 2) > |q|;
  }

  lemma EndShows(q: string, m: nat)
    requires OpensBlock(q, m) && InStep(q, m) && !ClosesAtOnce(q, m)
    requires |q| == BlockEnd(q, m + 2) + 2 && q[|q| - 2] == '*' && q[|q| - 1] == ';'
    ensures !CutAt(q, |q| - 1) && KindOf(q, m, |q| - 1).Plain?
  {
    var e := BlockEnd(q, m + 2);
    BlockEndIs(q, m + 2);
    BlockScanned(q, m + 2, e - 1);
    assert ModeAt(q, e) == Block && ModeAt(q, e + 1) == Block;
    assert TokenEnd(q, m) == e && TokenEnd(q, e) == e + 1;
    assert KindOf(q, e + 1, e + 1).Plain?;
    assert KindOf(q, e, e + 1) == KindOf(q, e + 1, e + 1);
  }

  /** Main result: the scanner reads every place of a text as the stripper does exactly when the text has no
      block comment that a slash follows at once or whose end a star follows. */
  lemma ReadRightExactly(s: string)
    ensures (forall j :: 0 <= j <= |s| ==> ReadRight(s, j)) <==> !Misread(s, 0)
  {
    if Misread(s, 0) {
      MisreadShows(s);
    } else {
      forall j | 0 <= j <= |s|
        ensures ReadRight(s, j)
      {
        if Misread(Ended(s, j), 0) {
          MisreadGrows(s, j, 0);
        } else {
          ReadAlike(Ended(s, j), 0, j);
        }
      }
    }
  }

  /** A slash after the opening: the ';' lies in the comment, and is cut all the same. */
  lemma CutInComment(s: string)
    requires s == "/*/;"
    ensures Uncommented(s, 0) == "" && CutAt(s, 3) && !RealCut(s, 0, 3)
  {
    OpeningShows(s, 0);
    assert BlockEnd(s, 3) > |s| && BlockEnd(s, 2) > |s|;
  }

  /** A star after the end: the ';' lies outside the comment, and is not cut. */
  lemma CutMissed(s: string)
    requires s == "/**/*;"
    ensures Uncommented(s, 0) == "*;" && !CutAt(s, 5) && RealCut(s, 0, 5)
  {
    assert BlockEnd(s, 2) == 4;
    EndShows(s, 0);
    StrippedIsOutside(s, 0);
    UncommentedToken(s, 0);
    UncommentedToken(s, 4);
    UncommentedToken(s, 5);
    assert s[4..5] == "*" && s[5..6] == ";";
  }
}
