/** What printing statements and splitting them again gives back. */
module SqlRoundTrip {
  import opened SqlScan
  import opened Text

  /** Scanning s from mode m meets no ordinary ';'. */
  predicate NoCut(s: string, m: Mode)
    decreases |s|
  {
    s == "" ||
    (!(s[0] == ';' && Ordinary(m, s[0], PeekAt(s, 1))) && NoCut(s[1..], After(m, s[0], PeekAt(s, 1))))
  }

  /** The mode in which scanning s from mode m ends. */
  function EndMode(s: string, m: Mode): Mode
    decreases |s|
  {
    if s == "" then m else EndMode(s[1..], After(m, s[0], PeekAt(s, 1)))
  }

  predicate Settled(m: Mode) { m == Neutral || m == Line }

  /** A statement the splitter can be trusted with: real, trimmed, without an ordinary ';', and ending in
      plain text or in a line comment. */
  predicate Clean(s: string) {
    HasStatement(s) && Trimmed(s) && NoCut(s, Neutral) && Settled(EndMode(s, Neutral))
  }

  // ---- Trimming ----

  predicate Blank(s: string) { forall i :: 0 <= i < |s| ==> IsSpace(s[i]) }

  lemma {:induction false} TrimLeftPad(pad: string, s: string)
    requires Blank(pad) && s != "" && Trimmed(s)
    ensures TrimLeft(pad + s) == s
  {
    if pad == "" {
      assert pad + s == s;
    } else {
      assert (pad + s)[1..] == pad[1..] + s;
      TrimLeftPad(pad[1..], s);
    }
  }

  lemma TrimPadded(pad: string, s: string)
    requires Blank(pad) && s != "" && Trimmed(s)
    ensures Trim(pad + s) == s
  {
    TrimLeftPad(pad, s);
  }

  lemma NothingToKeep(pad: string)
    requires Blank(pad)
    ensures Keep(pad) == []
    decreases |pad|
  {
    BlankTrims(pad);
  }

  lemma {:induction false} BlankTrims(pad: string)
    requires Blank(pad)
    ensures TrimLeft(pad) == ""
  {
    if pad != "" {
      BlankTrims(pad[1..]);
    }
  }

  lemma StatementNotEmpty(s: string)
    requires HasStatement(s)
    ensures s != ""
  {}

  // ---- One statement ----

  /** A ';' after the statement changes nothing in how it is scanned, and then cuts. */
  lemma {:induction false} Chunk(acc: string, s: string, m: Mode, post: string)
    requires NoCut(s, m) && Settled(EndMode(s, m))
    requires post == "" || post[0] == '\n'
    ensures Split(acc, s + ";" + post, m) == Keep(acc + s) + Split("", post, EndMode(s, m))
    decreases |s|
  {
    if s == "" {
      ChunkEnd(acc, m, post);
      assert s + ";" + post == ";" + post && acc + s == acc;
    } else {
      ChunkStep(acc, s, m, post);
      Chunk(acc + [s[0]], s[1..], After(m, s[0], PeekAt(s, 1)), post);
      assert acc + [s[0]] + s[1..] == acc + s;
    }
  }

  /** The ';' cuts, and leaves the mode as it was. */
  lemma ChunkEnd(acc: string, m: Mode, post: string)
    requires Settled(m) && (post == "" || post[0] == '\n')
    ensures Split(acc, ";" + post, m) == Keep(acc) + Split("", post, m)
  {
    SplitCons(acc, ';', post, m);
  }

  /** A character of the statement does not cut. */
  lemma ChunkStep(acc: string, s: string, m: Mode, post: string)
    requires s != "" && NoCut(s, m)
    ensures Split(acc, s + ";" + post, m)
         == Split(acc + [s[0]], s[1..] + ";" + post, After(m, s[0], PeekAt(s, 1)))
    ensures NoCut(s[1..], After(m, s[0], PeekAt(s, 1)))
    ensures EndMode(s, m) == EndMode(s[1..], After(m, s[0], PeekAt(s, 1)))
  {
    var rest := s[1..] + ";" + post;
    SameScan(s, m, post);
    SplitCons(acc, s[0], rest, m);
    assert s + ";" + post == [s[0]] + rest;
  }

  /** The character after the first is what it was before, or now the ';', which opens and closes nothing. */
  lemma SameScan(s: string, m: Mode, post: string)
    requires s != "" && NoCut(s, m)
    ensures var c, next := s[0], PeekAt(s[1..] + ";" + post, 0);
      && After(m, c, next) == After(m, c, PeekAt(s, 1))
      && !(c == ';' && Ordinary(m, c, next))
      && NoCut(s[1..], After(m, c, next)) && EndMode(s, m) == EndMode(s[1..], After(m, c, next))
  {
    if |s| > 1 {
      assert (s[1..] + ";" + post)[0] == s[1];
    }
  }

  lemma SplitCons(acc: string, c: char, rest: string, m: Mode)
    ensures var next := PeekAt(rest, 0);
            Split(acc, [c] + rest, m) ==
            if c == ';' && Ordinary(m, c, next) then Keep(acc) + Split("", rest, After(m, c, next))
            else Split(acc + [c], rest, After(m, c, next))
  {
    assert ([c] + rest)[1..] == rest && PeekAt([c] + rest, 1) == PeekAt(rest, 0);
  }

  /** A text that ends in ';' without being cut there ends inside a string or a block comment. */
  lemma {:induction false} UncutSemicolon(s: string, m: Mode)
    requires s != "" && s[|s| - 1] == ';' && NoCut(s, m)
    ensures !Settled(EndMode(s, m))
    decreases |s|
  {
    if |s| > 1 {
      UncutSemicolon(s[1..], After(m, s[0], PeekAt(s, 1)));
    }
  }

  lemma CleanIsTerminated(s: string)
    requires Clean(s)
    ensures Terminated(Trim(s)) == s + ";"
  {
    StatementNotEmpty(s);
    TrimOfTrimmed(s);
    if s[|s| - 1] == ';' {
      UncutSemicolon(s, Neutral);
    }
  }

  // ---- Statement lists ----

  lemma {:induction false} PrintedTail(stmts: seq<string>)
    requires |stmts| > 1
    ensures Printed(stmts) == Terminated(Trim(stmts[0])) + "\n" + Printed(stmts[1..])
  {
    var parts := seq(|stmts|, i requires 0 <= i < |stmts| => Terminated(Trim(stmts[i])));
    assert parts[1..] == seq(|stmts[1..]|, i requires 0 <= i < |stmts[1..]| => Terminated(Trim(stmts[1..][i])));
  }

  /** A clean statement is cut off by its ';', whatever blank stood before it. */
  lemma CutOff(pad: string, s: string, post: string)
    requires Blank(pad) && Clean(s) && (post == "" || post[0] == '\n')
    ensures Split(pad, s + ";" + post, Neutral) == [s] + Split("", post, EndMode(s, Neutral))
  {
    StatementNotEmpty(s);
    TrimPadded(pad, s);
    Chunk(pad, s, Neutral, post);
  }

  /** The line end after a statement closes a pending line comment and leads the next one. */
  lemma NextLine(tail: string, m: Mode)
    requires Settled(m)
    ensures Split("", "\n" + tail, m) == Split("\n", tail, Neutral)
  {
    SplitCons("", '\n', tail, m);
    assert "\n" + tail == ['\n'] + tail && "" + ['\n'] == "\n";
  }

  lemma LastStatement(pad: string, s: string)
    requires Blank(pad) && Clean(s)
    ensures Split(pad, s + ";", Neutral) == [s]
  {
    CutOff(pad, s, "");
    assert s + ";" + "" == s + ";";
    EmptyKept();
  }

  lemma FirstStatement(pad: string, s: string, tail: string)
    requires Blank(pad) && Clean(s)
    ensures Split(pad, s + ";" + "\n" + tail, Neutral) == [s] + Split("\n", tail, Neutral)
  {
    CutOff(pad, s, "\n" + tail);
    NextLine(tail, EndMode(s, Neutral));
    assert s + ";" + ("\n" + tail) == s + ";" + "\n" + tail;
  }

  lemma {:induction false} SplitPrinted(pad: string, stmts: seq<string>)
    requires Blank(pad) && forall i :: 0 <= i < |stmts| ==> Clean(stmts[i])
    ensures Split(pad, Printed(stmts), Neutral) == stmts
    decreases |stmts|
  {
    if stmts == [] {
      NothingToKeep(pad);
    } else {
      var s := stmts[0];
      CleanIsTerminated(s);
      if |stmts| == 1 {
        LastStatement(pad, s);
        assert Printed(stmts) == s + ";";
      } else {
        FirstStatement(pad, s, Printed(stmts[1..]));
        SplitPrinted("\n", stmts[1..]);
        PrintedTail(stmts);
      }
      assert stmts == [s] + stmts[1..];
    }
  }

  /** Print and split: any list of clean statements comes back, in order and unchanged. */
  lemma RoundTrip(stmts: seq<string>)
    requires forall i :: 0 <= i < |stmts| ==> Clean(stmts[i])
    ensures Split("", Printed(stmts), Neutral) == stmts
  {
    SplitPrinted("", stmts);
  }

  // ---- One statement: exactly when it comes back ----

  /** How many cuts scanning s from m makes. */
  function Cuts(s: string, m: Mode): nat
    decreases |s|
  {
    if s == "" then 0
    else
      (if s[0] == ';' && Ordinary(m, s[0], PeekAt(s, 1)) then 1 else 0)
      + Cuts(s[1..], After(m, s[0], PeekAt(s, 1)))
  }

  lemma {:induction false} NoCuts(s: string, m: Mode)
    ensures NoCut(s, m) <==> Cuts(s, m) == 0
    decreases |s|
  {
    if s != "" {
      NoCuts(s[1..], After(m, s[0], PeekAt(s, 1)));
    }
  }

  /** Every cut costs each piece at least one character. */
  lemma {:induction false} PiecesShrink(acc: string, s: string, m: Mode)
    ensures forall x :: x in Split(acc, s, m) ==> |x| + Cuts(s, m) <= |acc| + |s|
    decreases |s|
  {
    if s != "" {
      var m' := After(m, s[0], PeekAt(s, 1));
      if s[0] == ';' && Ordinary(m, s[0], PeekAt(s, 1)) {
        PiecesShrink("", s[1..], m');
        CutsBounded(s[1..], m');
      } else {
        PiecesShrink(acc + [s[0]], s[1..], m');
      }
    }
  }

  lemma {:induction false} CutsBounded(s: string, m: Mode)
    ensures Cuts(s, m) <= |s|
    decreases |s|
  {
    if s != "" {
      CutsBounded(s[1..], After(m, s[0], PeekAt(s, 1)));
    }
  }

  lemma {:induction false} Uncut(acc: string, s: string, m: Mode)
    requires NoCut(s, m)
    ensures Split(acc, s, m) == Keep(acc + s)
    decreases |s|
  {
    if s == "" {
      assert acc + s == acc;
    } else {
      Uncut(acc + [s[0]], s[1..], After(m, s[0], PeekAt(s, 1)));
      assert acc + [s[0]] + s[1..] == acc + s;
    }
  }

  predicate EndsInSemicolon(s: string) { s != "" && s[|s| - 1] == ';' }

  lemma {:induction false} TrimKeepsLast(s: string)
    requires EndsInSemicolon(s)
    ensures EndsInSemicolon(Trim(s))
  {
    if IsSpace(s[0]) {
      TrimKeepsLast(s[1..]);
    }
  }

  /** An appended ';' cuts exactly when the statement ends in plain text or a line comment. */
  lemma {:induction false} CutsExtended(s: string, m: Mode)
    requires !EndsInSemicolon(s)
    ensures Cuts(s + ";", m) == Cuts(s, m) + (if Settled(EndMode(s, m)) then 1 else 0)
    decreases |s|
  {
    var text := s + ";";
    if s != "" {
      assert text[1..] == s[1..] + ";";
      assert |s| > 1 ==> PeekAt(text, 1) == PeekAt(s, 1);
      CutsExtended(s[1..], After(m, s[0], PeekAt(s, 1)));
    }
  }

  /** When the appended ';' does not cut, the last piece carries it and the others fall short of s. */
  lemma {:induction false} SwallowedSemicolon(acc: string, s: string, m: Mode)
    requires !EndsInSemicolon(s) && !Settled(EndMode(s, m))
    ensures forall x :: x in Split(acc, s + ";", m) ==> EndsInSemicolon(x) || |x| < |acc| + |s|
    decreases |s|
  {
    var text := s + ";";
    if s == "" {
      assert text[1..] == "" && Split(acc, text, m) == Keep(acc + [';']);
      TrimKeepsLast(acc + [';']);
    } else {
      var c, m' := s[0], After(m, s[0], PeekAt(s, 1));
      assert text[0] == c && text[1..] == s[1..] + ";";
      assert |s| > 1 ==> PeekAt(text, 1) == PeekAt(s, 1);
      assert m' == After(m, c, PeekAt(text, 1));
      if c == ';' && Ordinary(m, c, PeekAt(text, 1)) {
        SwallowedSemicolon("", s[1..], m');
      } else {
        SwallowedSemicolon(acc + [c], s[1..], m');
      }
    }
  }

  /** Exactly which trimmed statements survive being terminated and split: those without an ordinary ';'
      that end in plain text or a line comment, or that already end in a (then quoted) ';'. */
  lemma SurvivesExactly(s: string)
    requires HasStatement(s) && Trimmed(s)
    ensures Split("", Terminated(s), Neutral) == [s]
      <==> NoCut(s, Neutral) && (Settled(EndMode(s, Neutral)) || EndsInSemicolon(s))
  {
    var pieces := Split("", Terminated(s), Neutral);
    StatementNotEmpty(s);
    TrimOfTrimmed(s);
    NoCuts(s, Neutral);
    if EndsInSemicolon(s) {
      if NoCut(s, Neutral) {
        Uncut("", s, Neutral);
        assert "" + s == s;
      } else {
        PiecesShrink("", s, Neutral);
        assert s !in pieces;
      }
    } else if Clean(s) {
      RoundTrip([s]);
      assert Printed([s]) == Terminated(s);
    } else {
      NotClean(s);
    }
  }

  lemma NotClean(s: string)
    requires HasStatement(s) && Trimmed(s) && !Clean(s) && !EndsInSemicolon(s)
    ensures s !in Split("", s + ";", Neutral)
  {
    NoCuts(s, Neutral);
    CutsExtended(s, Neutral);
    PiecesShrink("", s + ";", Neutral);
    if !Settled(EndMode(s, Neutral)) {
      SwallowedSemicolon("", s, Neutral);
    }
  }

  // ---- Scripts ----

  /** Every piece the script splitter yields is a real, trimmed statement. */
  lemma {:induction false} ScriptPieces(acc: string, s: string, m: Mode, depth: int, starts: string -> bool)
    ensures forall x :: x in SplitScript(acc, s, m, depth, starts) ==> HasStatement(x) && Trimmed(x)
    decreases |s|
  {
    if s != "" {
      var c, next := s[0], PeekAt(s, 1);
      var m' := After(m, c, next);
      ScriptPieces("", s[1..], m', depth, starts);
      ScriptPieces(acc + [c], s[1..], m', depth, starts);
      ScriptPieces(acc + [c], s[1..], m', depth + 1, starts);
      ScriptPieces(acc + [c], s[1..], m', depth - 1, starts);
    }
  }

  /** A normalised script splits into the statements of the script, provided each of them holds no
      ordinary ';' (one inside parentheses is not a cut for the script splitter) and ends outside strings
      and block comments. */
  lemma ScriptRoundTrip(txt: string, starts: string -> bool, stmts: seq<string>)
    requires stmts == SplitScript("", Trim(txt), Neutral, 0, starts)
    requires forall i :: 0 <= i < |stmts| ==> NoCut(stmts[i], Neutral) && Settled(EndMode(stmts[i], Neutral))
    ensures Split("", Printed(stmts), Neutral) == stmts
  {
    ScriptPieces("", Trim(txt), Neutral, 0, starts);
    RoundTrip(stmts);
  }

  // ---- Top-level pieces ----

  function JoinedBy(parts: seq<string>, sep: char): string
    requires parts != []
  {
    if |parts| == 1 then parts[0] else parts[0] + [sep] + JoinedBy(parts[1..], sep)
  }

  /** Pieces rejoined with the separator give the text back. */
  lemma {:induction false} PiecesRejoin(acc: string, s: string, m: Mode, depth: int, sep: char)
    ensures var parts := SplitTop(acc, s, m, depth, sep);
      parts != [] && JoinedBy(parts, sep) == acc + s
    decreases |s|
  {
    if s == "" {
      assert acc + s == acc;
    } else {
      var c, next := s[0], PeekAt(s, 1);
      var m' := After(m, c, next);
      assert acc + [c] + s[1..] == acc + s;
      if !Ordinary(m, c, next) {
        PiecesRejoin(acc + [c], s[1..], m', depth, sep);
      } else if c == '(' {
        PiecesRejoin(acc + [c], s[1..], m', depth + 1, sep);
      } else if c == ')' {
        PiecesRejoin(acc + [c], s[1..], m', depth - 1, sep);
      } else if c == sep && depth == 0 {
        PiecesRejoin("", s[1..], m', depth, sep);
        var rest := SplitTop("", s[1..], m', depth, sep);
        assert ([acc] + rest)[1..] == rest && "" + s[1..] == s[1..];
      } else {
        PiecesRejoin(acc + [c], s[1..], m', depth, sep);
      }
    }
  }

  /** Where scanning s from m and depth meets its first top-level separator; |s| when it meets none. */
  function FirstSeparator(s: string, m: Mode, depth: int, sep: char): (k: nat)
    ensures k <= |s|
    decreases |s|
  {
    if s == "" then 0
    else
      var c, next := s[0], PeekAt(s, 1);
      var m' := After(m, c, next);
      if !Ordinary(m, c, next) then 1 + FirstSeparator(s[1..], m', depth, sep)
      else if c == '(' then 1 + FirstSeparator(s[1..], m', depth + 1, sep)
      else if c == ')' then 1 + FirstSeparator(s[1..], m', depth - 1, sep)
      else if c == sep && depth == 0 then 0
      else 1 + FirstSeparator(s[1..], m', depth, sep)
  }

  /** The separators the source splits at. */
  predicate IsSeparator(sep: char) { sep == ',' || sep == ' ' }

  /** How the depth goes on after the first character of s. */
  function DepthAfter(s: string, m: Mode, depth: int): int
    requires s != ""
  {
    if !Ordinary(m, s[0], PeekAt(s, 1)) then depth
    else if s[0] == '(' then depth + 1
    else if s[0] == ')' then depth - 1
    else depth
  }

  lemma Regroup(acc: string, s: string, k: nat)
    requires 0 < k <= |s|
    ensures acc + [s[0]] + s[1..] == acc + s && acc + [s[0]] + s[1..][..k - 1] == acc + s[..k]
    ensures k < |s| ==> s[1..][k..] == s[k + 1..]
  {}

  /** Short of the first separator a character is taken in and scanning goes on. */
  lemma TakeIn(acc: string, s: string, m: Mode, depth: int, sep: char)
    requires FirstSeparator(s, m, depth, sep) > 0
    ensures var (c, rest) := (s[0], s[1..]);
      var (m', depth') := (After(m, c, PeekAt(s, 1)), DepthAfter(s, m, depth));
      && FirstSeparator(s, m, depth, sep) == 1 + FirstSeparator(rest, m', depth', sep)
      && SplitTop(acc, s, m, depth, sep) == SplitTop(acc + [c], rest, m', depth', sep)
  {}

  /** Past its first separator the text is scanned afresh. */
  lemma {:induction false} FirstPiece(acc: string, s: string, m: Mode, depth: int, sep: char)
    requires IsSeparator(sep)
    ensures var k := FirstSeparator(s, m, depth, sep);
      SplitTop(acc, s, m, depth, sep)
      == (if k == |s| then [acc + s] else [acc + s[..k]] + SplitTop("", s[k + 1..], Neutral, 0, sep))
    decreases |s|
  {
    var k := FirstSeparator(s, m, depth, sep);
    if s == "" {
      assert acc + s == acc;
    } else if k == 0 {
      assert acc + s[..0] == acc;
    } else {
      var c, rest := s[0], s[1..];
      TakeIn(acc, s, m, depth, sep);
      FirstPiece(acc + [c], rest, After(m, c, PeekAt(s, 1)), DepthAfter(s, m, depth), sep);
      Regroup(acc, s, k);
    }
  }

  /** A first piece taken by itself meets no separator. */
  lemma {:induction false} FirstPieceAlone(acc: string, s: string, m: Mode, depth: int, sep: char)
    requires IsSeparator(sep)
    ensures var k := FirstSeparator(s, m, depth, sep);
      SplitTop(acc, s[..k], m, depth, sep) == [acc + s[..k]]
    decreases |s|
  {
    var k := FirstSeparator(s, m, depth, sep);
    if k == 0 {
      assert acc + s[..0] == acc;
    } else {
      var c, rest, head := s[0], s[1..], s[..k];
      FirstPieceAlone(acc + [c], rest, After(m, c, PeekAt(s, 1)), DepthAfter(s, m, depth), sep);
      assert head[1..] == rest[..k - 1] && head[0] == c;
      assert acc + [c] + rest[..k - 1] == acc + head;
      AloneFirst(s, k, m, depth, sep);
    }
  }

  /** Cutting the text at the separator does not change how its first character is scanned. */
  lemma AloneFirst(s: string, k: nat, m: Mode, depth: int, sep: char)
    requires IsSeparator(sep) && 0 < k <= |s| && k == FirstSeparator(s, m, depth, sep)
    ensures After(m, s[0], PeekAt(s[..k], 1)) == After(m, s[0], PeekAt(s, 1))
    ensures Ordinary(m, s[0], PeekAt(s[..k], 1)) != Ordinary(m, s[0], PeekAt(s, 1)) ==> m == Line && s[0] == ';'
  {
    if k > 1 {
      assert s[..k][1] == s[1];
    } else if |s| > 1 {
      assert FirstSeparator(s[1..], After(m, s[0], PeekAt(s, 1)), DepthAfter(s, m, depth), sep) == 0;
      assert s[1] == sep;
    }
  }

  /** Every piece is final: splitting it again yields the piece itself. */
  lemma {:induction false} PiecesAreFinal(s: string, sep: char)
    requires IsSeparator(sep)
    ensures forall x :: x in SplitTop("", s, Neutral, 0, sep) ==> SplitTop("", x, Neutral, 0, sep) == [x]
    decreases |s|
  {
    var k := FirstSeparator(s, Neutral, 0, sep);
    FirstPiece("", s, Neutral, 0, sep);
    FirstPieceAlone("", s, Neutral, 0, sep);
    assert "" + s[..k] == s[..k] && "" + s == s;
    if k == |s| {
      assert s[..k] == s;
    } else {
      PiecesAreFinal(s[k + 1..], sep);
    }
  }
}
