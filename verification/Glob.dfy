/** The glob of the rule matcher: '*' stands for any run of characters, '?' for any one character. */
module Glob {

  /** The meaning of a pattern. */
  ghost predicate Matches(p: string, s: string)
    decreases |p|
  {
    if p == "" then s == ""
    else if p[0] == '*' then exists k :: 0 <= k <= |s| && Matches(p[1..], s[k..])
    else s != "" && (p[0] == '?' || p[0] == s[0]) && Matches(p[1..], s[1..])
  }

  /** What patterns of one character match: '*' any text, '?' any one character, another character itself. */
  lemma OneCharacter(c: char, s: string)
    ensures Matches("", s) <==> s == ""
    ensures Matches([c], s) <==> c == '*' || (c == '?' && |s| == 1) || s == [c]
  {
    assert [c][1..] == "";
    if c == '*' {
      assert s[|s|..] == "";
    } else if s != "" {
      assert s == [s[0]] + s[1..];
    }
  }

  /** And of longer ones: a part after another matches a part after another. */
  lemma {:induction false} Concatenates(p: string, q: string, s: string)
    ensures Matches(p + q, s) <==> exists k :: 0 <= k <= |s| && Matches(p, s[..k]) && Matches(q, s[k..])
    decreases |p|
  {
    if p == "" {
      assert p + q == q && s[..0] == "" && s[0..] == s;
    } else {
      assert (p + q)[1..] == p[1..] + q;
      if p[0] == '*' {
        StarThen(p, q, s);
      } else {
        OneThen(p, q, s);
      }
    }
  }

  lemma {:induction false} OneThen(p: string, q: string, s: string)
    requires p != "" && p[0] != '*' && (p + q)[1..] == p[1..] + q
    ensures Matches(p + q, s) <==> exists k :: 0 <= k <= |s| && Matches(p, s[..k]) && Matches(q, s[k..])
    decreases |p|, 0
  {
    if s != "" {
      Concatenates(p[1..], q, s[1..]);
      if Matches(p + q, s) {
        var k :| 0 <= k <= |s[1..]| && Matches(p[1..], s[1..][..k]) && Matches(q, s[1..][k..]);
        assert s[..k + 1][1..] == s[1..][..k] && s[k + 1..] == s[1..][k..];
        assert Matches(p, s[..k + 1]);
      }
      forall k | 0 <= k <= |s| && Matches(p, s[..k]) && Matches(q, s[k..])
        ensures Matches(p + q, s)
      {
        assert s[..k][1..] == s[1..][..k - 1] && s[k..] == s[1..][k - 1..];
      }
    }
  }

  lemma {:induction false} StarThen(p: string, q: string, s: string)
    requires p != "" && p[0] == '*' && (p + q)[1..] == p[1..] + q
    ensures Matches(p + q, s) <==> exists k :: 0 <= k <= |s| && Matches(p, s[..k]) && Matches(q, s[k..])
    decreases |p|, 0
  {
    if Matches(p + q, s) {
      var j :| 0 <= j <= |s| && Matches(p[1..] + q, s[j..]);
      Concatenates(p[1..], q, s[j..]);
      var k :| 0 <= k <= |s[j..]| && Matches(p[1..], s[j..][..k]) && Matches(q, s[j..][k..]);
      assert s[..j + k][j..] == s[j..][..k] && s[j + k..] == s[j..][k..];
      assert Matches(p, s[..j + k]);
    }
    forall k | 0 <= k <= |s| && Matches(p, s[..k]) && Matches(q, s[k..])
      ensures Matches(p + q, s)
    {
      var j :| 0 <= j <= |s[..k]| && Matches(p[1..], s[..k][j..]);
      assert s[..k][j..] == s[j..][..k - j] && s[k..] == s[j..][k - j..];
      Concatenates(p[1..], q, s[j..]);
    }
  }

  /** What the loop decides: as Matches, except that a '*' of the pattern facing a '*' of the subject is
      taken literally, because equality is tested before the star. */
  ghost predicate LoopMatches(p: string, s: string)
    decreases |p|
  {
    if p == "" then s == ""
    else if s != "" && (p[0] == '?' || p[0] == s[0]) then LoopMatches(p[1..], s[1..])
    else p[0] == '*' && exists k :: 0 <= k <= |s| && LoopMatches(p[1..], s[k..])
  }

  /** A star before p that is given everything up to some position from k on lets p match the rest. */
  ghost predicate AfterStar(p: string, s: string, k: nat) {
    exists j :: k <= j <= |s| && LoopMatches(p, s[j..])
  }

  lemma StarHere(p: string, s: string, i: nat)
    requires i <= |s| && p != "" && p[0] == '*' && (i == |s| || s[i] != '*')
    ensures LoopMatches(p, s[i..]) <==> AfterStar(p[1..], s, i)
  {
    if LoopMatches(p, s[i..]) {
      var k :| 0 <= k <= |s[i..]| && LoopMatches(p[1..], s[i..][k..]);
      assert s[i..][k..] == s[i + k..];
    }
    if AfterStar(p[1..], s, i) {
      var j :| i <= j <= |s| && LoopMatches(p[1..], s[j..]);
      assert s[i..][j - i..] == s[j..];
    }
  }

  /** Wherever it starts from i on, a star can be followed no earlier than at i. */
  lemma StarFrom(p: string, s: string, i: nat, j: nat)
    requires i <= j <= |s| && p != "" && p[0] == '*' && LoopMatches(p, s[j..])
    ensures AfterStar(p[1..], s, i)
  {
    if j < |s| && s[j] == '*' {
      assert s[j..][1..] == s[j + 1..];
    } else {
      StarHere(p, s, j);
    }
  }

  /** q[..n] stood literally against the subject from mark on: its stars met stars. */
  ghost predicate StoodLiterally(q: string, n: nat, s: string, mark: nat) {
    n <= |q| && mark + n <= |s| && forall i :: 0 <= i < n ==> q[i] == '*' ==> s[mark + i] == '*'
  }

  /** A part of the pattern that stood literally from mark on consumes at least as much when it is tried
      from any later position. */
  lemma {:induction false} NoEarlier(q: string, n: nat, s: string, mark: nat, j: nat) returns (j': nat)
    requires StoodLiterally(q, n, s, mark) && mark <= j <= |s| && LoopMatches(q, s[j..])
    ensures mark + n <= j' <= |s| && LoopMatches(q[n..], s[j'..])
    decreases n
  {
    if n == 0 {
      assert q[0..] == q;
      j' := j;
    } else {
      var next := FirstOff(q, s, mark, j);
      StandsOn(q, n, s, mark);
      j' := NoEarlier(q[1..], n - 1, s, mark + 1, next);
      assert q[1..][n - 1..] == q[n..];
    }
  }

  /** Past its first character the pattern goes on at a later place. */
  lemma FirstOff(q: string, s: string, mark: nat, j: nat) returns (next: nat)
    requires q != "" && mark < |s| && mark <= j <= |s| && LoopMatches(q, s[j..])
    requires q[0] == '*' ==> s[mark] == '*'
    ensures mark + 1 <= next <= |s| && LoopMatches(q[1..], s[next..])
  {
    if j < |s| && (q[0] == '?' || q[0] == s[j]) {
      assert s[j..][1..] == s[j + 1..];
      next := j + 1;
    } else {
      assert q[0] == '*' && (j < |s| ==> s[j] != '*');
      StarHere(q, s, j);
      next :| j <= next <= |s| && LoopMatches(q[1..], s[next..]);
    }
  }

  lemma StandsOn(q: string, n: nat, s: string, mark: nat)
    requires n > 0 && StoodLiterally(q, n, s, mark)
    ensures StoodLiterally(q[1..], n - 1, s, mark + 1) && mark < |s| && (q[0] == '*' ==> s[mark] == '*')
  {
    assert forall i :: 0 <= i < n - 1 ==> q[1..][i] == q[i + 1];
  }

  lemma AfterStarStep(q: string, s: string, k: nat)
    requires k <= |s|
    ensures AfterStar(q, s, k) <==> LoopMatches(q, s[k..]) || AfterStar(q, s, k + 1)
  {}

  lemma {:induction false} OnlyStarsLeft(p: string)
    ensures LoopMatches(p, "") <==> forall i :: 0 <= i < |p| ==> p[i] == '*'
  {
    if p != "" {
      OnlyStarsLeft(p[1..]);
      assert forall i :: 1 <= i < |p| ==> p[i] == p[1..][i - 1];
      if p[0] == '*' {
        assert ""[0..] == "";
      }
    }
  }

  /** What the loop keeps: with no star seen, the rest decides; with a star at star, either the rest fits
      from here or the star must take more than mark characters. */
  ghost predicate Progress(p: string, s: string, px: int, sx: int, star: int, mark: int) {
    && 0 <= px <= |p| && 0 <= mark <= sx <= |s| && -1 <= star < px
    && (star < 0 ==> mark == 0 && LoopMatches(p, s) == LoopMatches(p[px..], s[sx..]))
    && (star >= 0 ==>
          && p[star] == '*' && px - (star + 1) == sx - mark
          && StoodLiterally(p[star + 1..], px - (star + 1), s, mark)
          && LoopMatches(p, s) == AfterStar(p[star + 1..], s, mark)
          && LoopMatches(p[star + 1..], s[mark..]) == LoopMatches(p[px..], s[sx..]))
  }

  lemma LiteralStep(p: string, s: string, px: nat, sx: nat, star: int, mark: nat)
    requires Progress(p, s, px, sx, star, mark) && px < |p| && sx < |s| && (p[px] == '?' || p[px] == s[sx])
    ensures Progress(p, s, px + 1, sx + 1, star, mark)
  {
    assert p[px..][1..] == p[px + 1..] && s[sx..][1..] == s[sx + 1..];
  }

  lemma StarStep(p: string, s: string, px: nat, sx: nat, star: int, mark: nat)
    requires Progress(p, s, px, sx, star, mark) && px < |p| && sx < |s| && p[px] == '*' != s[sx]
    ensures Progress(p, s, px + 1, sx, px, sx)
  {
    assert p[px..][1..] == p[px + 1..];
    StarHere(p[px..], s, sx);
    if star >= 0 {
      var q, n := p[star + 1..], px - (star + 1);
      assert q[n..] == p[px..] && q[n + 1..] == p[px + 1..];
      NewStar(q, n, s, mark, sx);
    }
  }

  lemma BackStep(p: string, s: string, px: nat, sx: nat, star: nat, mark: nat)
    requires Progress(p, s, px, sx, star, mark) && sx < |s|
    requires px < |p| ==> p[px] != '?' && p[px] != s[sx] && p[px] != '*'
    ensures Progress(p, s, star + 1, mark + 1, star, mark + 1)
  {
    assert !LoopMatches(p[px..], s[sx..]);
    AfterStarStep(p[star + 1..], s, mark);
  }

  lemma Refused(p: string, s: string, px: nat, sx: nat, star: int, mark: nat)
    requires Progress(p, s, px, sx, star, mark) && sx < |s| && star < 0
    requires px < |p| ==> p[px] != '?' && p[px] != s[sx] && p[px] != '*'
    ensures !LoopMatches(p, s)
  {}

  lemma SubjectUsedUp(p: string, s: string, px: nat, star: int, mark: nat)
    requires Progress(p, s, px, |s|, star, mark)
    ensures LoopMatches(p, s) <==> forall i :: px <= i < |p| ==> p[i] == '*'
  {
    assert s[|s|..] == "";
    if star >= 0 {
      var q, n := p[star + 1..], px - (star + 1);
      assert q[n..] == p[px..];
      AtEnd(q, n, s, mark);
    }
    OnlyStarsLeft(p[px..]);
    assert forall i :: px <= i < |p| ==> p[i] == p[px..][i - px];
  }

  lemma Started(p: string, s: string)
    ensures Progress(p, s, 0, 0, -1, 0)
  {
    assert p[0..] == p && s[0..] == s;
  }

  lemma Verdict(p: string, s: string)
    ensures LoopMatches(p, s) ==> Matches(p, s)
    ensures '*' !in s ==> LoopMatches(p, s) == Matches(p, s)
  {
    LoopIsSound(p, s);
    if '*' !in s {
      LoopIsComplete(p, s);
    }
  }

  /** The matching loop terminates and decides LoopMatches: a true answer is always right, and for a
      subject without '*' the answer is exactly the meaning of the pattern. */
  method MatchGlob(pattern: string, s: string) returns (ok: bool)
    ensures ok == LoopMatches(pattern, s)
    ensures ok ==> Matches(pattern, s)
    ensures '*' !in s ==> ok == Matches(pattern, s)
  {
    Started(pattern, s);
    var px, sx, star, mark := 0, 0, -1, 0;
    while sx < |s|
      invariant Progress(pattern, s, px, sx, star, mark)
      decreases |s| - mark, |pattern| - star, |s| - sx
    {
      if px < |pattern| && (pattern[px] == '?' || pattern[px] == s[sx]) {
        LiteralStep(pattern, s, px, sx, star, mark);
        px := px + 1;
        sx := sx + 1;
      } else if px < |pattern| && pattern[px] == '*' {
        StarStep(pattern, s, px, sx, star, mark);
        star, mark := px, sx;
        px := px + 1;
      } else if star >= 0 {
        BackStep(pattern, s, px, sx, star, mark);
        px, mark := star + 1, mark + 1;
        sx := mark;
      } else {
        Refused(pattern, s, px, sx, star, mark);
        Verdict(pattern, s);
        return false;
      }
    }
    SubjectUsedUp(pattern, s, px, star, mark);
    ghost var from := px;
    while px < |pattern| && pattern[px] == '*'
      invariant from <= px <= |pattern|
      invariant forall i :: from <= i < px ==> pattern[i] == '*'
    {
      px := px + 1;
    }
    Verdict(pattern, s);
    return px == |pattern|;
  }

  /** When a new star is met at position at, it alone decides. */
  lemma NewStar(q: string, n: nat, s: string, mark: nat, at: nat)
    requires StoodLiterally(q, n, s, mark) && at == mark + n < |s|
    requires n < |q| && q[n] == '*' && s[at] != '*'
    requires LoopMatches(q, s[mark..]) == LoopMatches(q[n..], s[at..])
    ensures AfterStar(q, s, mark) == AfterStar(q[n + 1..], s, at)
  {
    var r := q[n..];
    assert r[1..] == q[n + 1..];
    StarHere(r, s, at);
    AfterStarStep(q, s, mark);
    if AfterStar(q, s, mark + 1) {
      var j :| mark + 1 <= j <= |s| && LoopMatches(q, s[j..]);
      var j' := NoEarlier(q, n, s, mark, j);
      StarFrom(r, s, at, j');
    }
  }

  /** When the subject is used up, trying the star further cannot help. */
  lemma AtEnd(q: string, n: nat, s: string, mark: nat)
    requires StoodLiterally(q, n, s, mark) && mark + n == |s|
    requires LoopMatches(q, s[mark..]) == LoopMatches(q[n..], s[|s|..])
    ensures AfterStar(q, s, mark) == LoopMatches(q[n..], s[|s|..])
  {
    AfterStarStep(q, s, mark);
    if AfterStar(q, s, mark + 1) {
      var j :| mark + 1 <= j <= |s| && LoopMatches(q, s[j..]);
      var j' := NoEarlier(q, n, s, mark, j);
    }
  }

  lemma {:induction false} LoopIsSound(p: string, s: string)
    ensures LoopMatches(p, s) ==> Matches(p, s)
    decreases |p|
  {
    if p != "" && LoopMatches(p, s) {
      if s != "" && (p[0] == '?' || p[0] == s[0]) {
        LoopIsSound(p[1..], s[1..]);
      } else {
        var k :| 0 <= k <= |s| && LoopMatches(p[1..], s[k..]);
        LoopIsSound(p[1..], s[k..]);
      }
    }
  }

  lemma {:induction false} LoopIsComplete(p: string, s: string)
    requires '*' !in s
    ensures Matches(p, s) ==> LoopMatches(p, s)
    decreases |p|
  {
    if p != "" && Matches(p, s) {
      if p[0] == '*' {
        var k :| 0 <= k <= |s| && Matches(p[1..], s[k..]);
        LoopIsComplete(p[1..], s[k..]);
      } else {
        LoopIsComplete(p[1..], s[1..]);
      }
    }
  }

  /** The loop agrees with the meaning of every pattern exactly when the subject holds no '*'. */
  lemma AgreesExactlyWithoutStar(s: string)
    ensures (forall p :: LoopMatches(p, s) == Matches(p, s)) <==> '*' !in s
  {
    if '*' in s {
      var p := Misread(s);
      assert LoopMatches(p, s) != Matches(p, s);
    } else {
      forall p: string
        ensures LoopMatches(p, s) == Matches(p, s)
      {
        LoopIsSound(p, s);
        LoopIsComplete(p, s);
      }
    }
  }

  /** For a subject with a '*', a pattern that fits it and that the loop refuses: the subject up to its
      first '*', a star standing for nothing, and a '?' for every character left. */
  lemma {:induction false} Misread(s: string) returns (p: string)
    requires '*' in s
    ensures Matches(p, s) && !LoopMatches(p, s)
    decreases |s|
  {
    if s[0] == '*' {
      var marks := seq(|s|, i => '?');
      p := "*" + marks;
      assert p[1..] == marks && s[0..] == s;
      AnyOf(marks, s);
      AnyOf(marks, s[1..]);
    } else {
      var rest := Misread(s[1..]);
      p := [s[0]] + rest;
      assert p[1..] == rest;
    }
  }

  lemma {:induction false} AnyOf(marks: string, s: string)
    requires forall i :: 0 <= i < |marks| ==> marks[i] == '?'
    ensures Matches(marks, s) == LoopMatches(marks, s) == (|s| == |marks|)
    decreases |marks|
  {
    if marks != "" && s != "" {
      AnyOf(marks[1..], s[1..]);
    }
  }
}
