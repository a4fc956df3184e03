/** The character scanner that knows strings and comments, and the splitters built on it. */
module SqlScan {
  import opened Text

  predicate IsQuote(c: char) { c == '\'' || c == '"' || c == '`' }

  type Quote = c: char | IsQuote(c) witness '"'

  /** Where the scanner stands: in plain text, inside a string opened by quote (skip: the next quote
      belongs to an escaped pair), in a line comment, or in a block comment. */
  datatype Mode = Neutral | Quoted(quote: Quote, skip: bool) | Line | Block

  /** The character after the current one, if the text has one. */
  datatype Peek = End | Next(c: char)

  function PeekAt(s: string, i: nat): Peek { if i < |s| then Next(s[i]) else End }

  /** The mode after character c. */
  function After(m: Mode, c: char, next: Peek): Mode {
    match m
    case Line => if c == '\n' then Neutral else Line
    case Block => if c == '*' && next == Next('/') then Neutral else Block
    case Quoted(q, skip) =>
      if skip then Quoted(q, false)
      else if c == q then (if next == Next(q) then Quoted(q, true) else Neutral)
      else m
    case Neutral =>
      if IsQuote(c) then Quoted(c, false)
      else if c == '-' && next == Next('-') then Line
      else if c == '/' && next == Next('*') then Block
      else Neutral
  }

  /** Whether c stands in ordinary text. A ';' that ends a line comment's line counts as ordinary. */
  predicate Ordinary(m: Mode, c: char, next: Peek) {
    match m
    case Line => c == ';' && (next == End || next == Next('\n'))
    case Block => false
    case Quoted(_, _) => false
    case Neutral => !(c == '-' && next == Next('-')) && !(c == '/' && next == Next('*'))
  }

  /** The scanner as the source keeps it: one flag per mode, stepped over a text. */
  class TokenState {
    var inSingle: bool
    var inDouble: bool
    var inBacktick: bool
    var inLine: bool
    var inBlock: bool
    var skipQuote: bool

    ghost predicate Valid()
      reads this
    {
      && (inSingle ==> !inDouble && !inBacktick && !inLine && !inBlock)
      && (inDouble ==> !inBacktick && !inLine && !inBlock)
      && (inBacktick ==> !inLine && !inBlock)
      && (inLine ==> !inBlock)
      && (skipQuote ==> inSingle || inDouble || inBacktick)
    }

    ghost function View(): Mode
      reads this
    {
      if inLine then Line
      else if inBlock then Block
      else if inSingle then Quoted('\'', skipQuote)
      else if inDouble then Quoted('"', skipQuote)
      else if inBacktick then Quoted('`', skipQuote)
      else Neutral
    }

    constructor ()
      ensures Valid() && View() == Neutral
    {
      inSingle, inDouble, inBacktick, inLine, inBlock, skipQuote := false, false, false, false, false, false;
    }

    method Step(s: string, i: nat) returns (ordinary: bool)
      requires Valid() && i < |s|
      modifies this
      ensures Valid() && View() == After(old(View()), s[i], PeekAt(s, i + 1))
      ensures ordinary == Ordinary(old(View()), s[i], PeekAt(s, i + 1))
    {
      var c := s[i];
      if inLine {
        if c == '\n' {
          inLine := false;
        }
        return c == ';' && (i + 1 >= |s| || s[i + 1] == '\n');
      } else if inBlock {
        if c == '*' && i + 1 < |s| && s[i + 1] == '/' {
          inBlock := false;
        }
        return false;
      } else if inSingle || inDouble || inBacktick {
        var quote := '\'';
        if inDouble {
          quote := '"';
        } else if inBacktick {
          quote := '`';
        }
        if skipQuote {
          skipQuote := false;
          return false;
        }
        if c == quote {
          if i + 1 < |s| && s[i + 1] == quote {
            skipQuote := true;
            return false;
          }
          inSingle, inDouble, inBacktick := false, false, false;
        }
        return false;
      } else if c == '\'' {
        inSingle := true;
      } else if c == '"' {
        inDouble := true;
      } else if c == '`' {
        inBacktick := true;
      } else if c == '-' && i + 1 < |s| && s[i + 1] == '-' {
        inLine := true;
        return false;
      } else if c == '/' && i + 1 < |s| && s[i + 1] == '*' {
        inBlock := true;
        return false;
      }
      return true;
    }
  }

  // ---- Comments ----

  /** Where the string opened by quote before position i ends: past its closing quote, or at the end. */
  function QuoteEnd(s: string, quote: char, i: nat): (e: nat)
    requires i <= |s|
    ensures i <= e <= |s|
    decreases |s| - i
  {
    if i == |s| then i
    else if s[i] != quote then QuoteEnd(s, quote, i + 1)
    else if i + 1 < |s| && s[i + 1] == quote then QuoteEnd(s, quote, i + 2)
    else i + 1
  }

  function LineEnd(s: string, i: nat): (e: nat)
    requires i <= |s|
    ensures i <= e <= |s|
    decreases |s| - i
  {
    if i == |s| || s[i] == '\n' then i else LineEnd(s, i + 1)
  }

  /** Past the end of the block comment whose text begins at i; past the whole text when it never ends. */
  function BlockEnd(s: string, i: nat): (e: nat)
    ensures i <= e
    decreases |s| - i
  {
    if i + 1 < |s| && !(s[i] == '*' && s[i + 1] == '/') then BlockEnd(s, i + 1) else i + 2
  }

  /** The text from i on without comments. */
  function Uncommented(s: string, i: nat): string
    decreases |s| - i
  {
    if i >= |s| then ""
    else if IsQuote(s[i]) then
      var e := QuoteEnd(s, s[i], i + 1);
      s[i..e] + Uncommented(s, e)
    else if s[i] == '-' && i + 1 < |s| && s[i + 1] == '-' then
      assert LineEnd(s, i) > i;
      Uncommented(s, LineEnd(s, i))
    else if s[i] == '/' && i + 1 < |s| && s[i + 1] == '*' then Uncommented(s, BlockEnd(s, i + 2))
    else [s[i]] + Uncommented(s, i + 1)
  }

  /** Copy the string whose opening quote stands at start, up to past its end. */
  method CopyString(s: string, start: nat) returns (copy: string, i: nat)
    requires start < |s|
    ensures i == QuoteEnd(s, s[start], start + 1) && copy == s[start..i]
  {
    var quote := s[start];
    copy, i := [quote], start + 1;
    while i < |s|
      invariant start < i <= |s| && copy == s[start..i]
      invariant QuoteEnd(s, quote, start + 1) == QuoteEnd(s, quote, i)
    {
      if s[i] == quote {
        if i + 1 < |s| && s[i + 1] == quote {
          copy := copy + [quote] + [quote];
          i := i + 2;
          continue;
        }
        copy := copy + [quote];
        i := i + 1;
        return;
      }
      copy := copy + [s[i]];
      i := i + 1;
    }
  }

  method StripComments(s: string) returns (b: string)
    ensures b == Uncommented(s, 0)
  {
    b := "";
    var i := 0;
    while i < |s|
      invariant b + Uncommented(s, i) == Uncommented(s, 0)
    {
      ghost var start, head := i, b;
      var c := s[i];
      if IsQuote(c) {
        var copy;
        copy, i := CopyString(s, i);
        b := b + copy;
        assert head + (copy + Uncommented(s, i)) == b + Uncommented(s, i);
      } else if c == '-' && i + 1 < |s| && s[i + 1] == '-' {
        while i < |s| && s[i] != '\n'
          invariant start <= i <= |s| && LineEnd(s, start) == LineEnd(s, i)
        {
          i := i + 1;
        }
      } else if c == '/' && i + 1 < |s| && s[i + 1] == '*' {
        i := i + 2;
        while i + 1 < |s| && !(s[i] == '*' && s[i + 1] == '/')
          invariant start + 2 <= i && BlockEnd(s, start + 2) == BlockEnd(s, i)
        {
          i := i + 1;
        }
        i := i + 2;
      } else {
        b := b + [c];
        i := i + 1;
        assert head + ([c] + Uncommented(s, i)) == b + Uncommented(s, i);
      }
    }
  }

  /** Something is left once comments and blanks are gone. */
  predicate HasStatement(seg: string) { Trim(Uncommented(seg, 0)) != "" }

  // ---- The splitters, as functions of the text still to scan ----

  /** A finished segment: trimmed, and dropped when it holds no statement. */
  function Keep(seg: string): seq<string> {
    if HasStatement(Trim(seg)) then [Trim(seg)] else []
  }

  /** Split s at ordinary ';', with acc the segment so far. */
  function Split(acc: string, s: string, m: Mode): seq<string>
    decreases |s|
  {
    if s == "" then Keep(acc)
    else
      var next := PeekAt(s, 1);
      var m' := After(m, s[0], next);
      if s[0] == ';' && Ordinary(m, s[0], next) then Keep(acc) + Split("", s[1..], m')
      else Split(acc + [s[0]], s[1..], m')
  }

  /** Split s at top-level separators: ordinary, outside parentheses. */
  function SplitTop(acc: string, s: string, m: Mode, depth: int, sep: char): seq<string>
    decreases |s|
  {
    if s == "" then [acc]
    else
      var c, next := s[0], PeekAt(s, 1);
      var m' := After(m, c, next);
      if !Ordinary(m, c, next) then SplitTop(acc + [c], s[1..], m', depth, sep)
      else if c == '(' then SplitTop(acc + [c], s[1..], m', depth + 1, sep)
      else if c == ')' then SplitTop(acc + [c], s[1..], m', depth - 1, sep)
      else if c == sep && depth == 0 then [acc] + SplitTop("", s[1..], m', depth, sep)
      else SplitTop(acc + [c], s[1..], m', depth, sep)
  }

  lemma SplitStep(acc: string, s: string, i: nat, m: Mode)
    requires i < |s|
    ensures var next := PeekAt(s, i + 1);
            var m' := After(m, s[i], next);
            Split(acc, s[i..], m) ==
            if s[i] == ';' && Ordinary(m, s[i], next) then Keep(acc) + Split("", s[i + 1..], m')
            else Split(acc + [s[i]], s[i + 1..], m')
  {
    assert s[i..][0] == s[i] && s[i..][1..] == s[i + 1..] && PeekAt(s[i..], 1) == PeekAt(s, i + 1);
  }

  /** What is out and what is still to come, one character on. */
  lemma SplitAdvance(out: seq<string>, s: string, last: nat, i: nat, m: Mode)
    requires last <= i < |s|
    ensures var next := PeekAt(s, i + 1);
            var m' := After(m, s[i], next);
            out + Split(s[last..i], s[i..], m) ==
            if s[i] == ';' && Ordinary(m, s[i], next)
            then out + Keep(s[last..i]) + Split(s[i + 1..i + 1], s[i + 1..], m')
            else out + Split(s[last..i + 1], s[i + 1..], m')
    ensures out + [] == out
  {
    SplitStep(s[last..i], s, i, m);
    assert s[last..i] + [s[i]] == s[last..i + 1] && s[i + 1..i + 1] == "";
  }

  method SplitStatements(sqlText: string) returns (out: seq<string>)
    ensures out == Split("", sqlText, Neutral)
  {
    out := [];
    var st := new TokenState();
    var last, i := 0, 0;
    assert sqlText[0..0] == "" && sqlText[0..] == sqlText;
    while i < |sqlText|
      invariant 0 <= last <= i <= |sqlText| && st.Valid()
      invariant out + Split(sqlText[last..i], sqlText[i..], st.View()) == Split("", sqlText, Neutral)
    {
      SplitAdvance(out, sqlText, last, i, st.View());
      var ordinary := st.Step(sqlText, i);
      if ordinary && sqlText[i] == ';' {
        var seg := Trim(sqlText[last..i]);
        if HasStatement(seg) {
          out := out + [seg];
        }
        last := i + 1;
      }
      i := i + 1;
    }
    assert sqlText[i..] == "" && sqlText[last..i] == sqlText[last..];
    var seg := Trim(sqlText[last..]);
    if HasStatement(seg) {
      out := out + [seg];
    }
  }

  lemma TopAdvance(out: seq<string>, s: string, last: nat, i: nat, m: Mode, depth: int, sep: char)
    requires last <= i < |s|
    ensures var c, next := s[i], PeekAt(s, i + 1);
            var m' := After(m, c, next);
            out + SplitTop(s[last..i], s[i..], m, depth, sep) ==
            if Ordinary(m, c, next) && c != '(' && c != ')' && c == sep && depth == 0
            then out + [s[last..i]] + SplitTop(s[i + 1..i + 1], s[i + 1..], m', depth, sep)
            else out + SplitTop(s[last..i + 1], s[i + 1..], m',
                   if !Ordinary(m, c, next) then depth
                   else if c == '(' then depth + 1 else if c == ')' then depth - 1 else depth, sep)
  {
    assert s[i..][0] == s[i] && s[i..][1..] == s[i + 1..] && PeekAt(s[i..], 1) == PeekAt(s, i + 1);
    assert s[last..i] + [s[i]] == s[last..i + 1] && s[i + 1..i + 1] == "";
  }

  method SplitTopLevel(s: string, sep: char) returns (out: seq<string>)
    ensures out == SplitTop("", s, Neutral, 0, sep)
  {
    out := [];
    var st := new TokenState();
    var depth, last, i := 0, 0, 0;
    assert s[0..0] == "" && s[0..] == s;
    while i < |s|
      invariant 0 <= last <= i <= |s| && st.Valid()
      invariant out + SplitTop(s[last..i], s[i..], st.View(), depth, sep) == SplitTop("", s, Neutral, 0, sep)
    {
      TopAdvance(out, s, last, i, st.View(), depth, sep);
      var ordinary := st.Step(s, i);
      if ordinary {
        if s[i] == '(' {
          depth := depth + 1;
        } else if s[i] == ')' {
          depth := depth - 1;
        } else if s[i] == sep && depth == 0 {
          out := out + [s[last..i]];
          last := i + 1;
        }
      }
      i := i + 1;
    }
    assert s[i..] == "" && s[last..i] == s[last..];
    out := out + [s[last..]];
  }

  /** Split a script at top-level ';' and at top-level line ends before a line that begins a statement;
      starts stands for the keyword test on the text that follows. */
  function SplitScript(acc: string, s: string, m: Mode, depth: int, starts: string -> bool): seq<string>
    decreases |s|
  {
    if s == "" then Keep(acc)
    else
      var c, next := s[0], PeekAt(s, 1);
      var m' := After(m, c, next);
      if !Ordinary(m, c, next) then SplitScript(acc + [c], s[1..], m', depth, starts)
      else if c == '(' then SplitScript(acc + [c], s[1..], m', depth + 1, starts)
      else if c == ')' then SplitScript(acc + [c], s[1..], m', depth - 1, starts)
      else if depth == 0 && (c == ';' || (c == '\n' && starts(s[1..]))) then
        Keep(acc) + SplitScript("", s[1..], m', depth, starts)
      else SplitScript(acc + [c], s[1..], m', depth, starts)
  }

  lemma SplitScriptStep(acc: string, s: string, i: nat, m: Mode, depth: int, starts: string -> bool)
    requires i < |s|
    ensures var c, next := s[i], PeekAt(s, i + 1);
            var m' := After(m, c, next);
            SplitScript(acc, s[i..], m, depth, starts) ==
            if !Ordinary(m, c, next) then SplitScript(acc + [c], s[i + 1..], m', depth, starts)
            else if c == '(' then SplitScript(acc + [c], s[i + 1..], m', depth + 1, starts)
            else if c == ')' then SplitScript(acc + [c], s[i + 1..], m', depth - 1, starts)
            else if depth == 0 && (c == ';' || (c == '\n' && starts(s[i + 1..]))) then
              Keep(acc) + SplitScript("", s[i + 1..], m', depth, starts)
            else SplitScript(acc + [c], s[i + 1..], m', depth, starts)
  {
    assert s[i..][0] == s[i] && s[i..][1..] == s[i + 1..] && PeekAt(s[i..], 1) == PeekAt(s, i + 1);
  }

  lemma ScriptAdvance(out: seq<string>, s: string, last: nat, i: nat, m: Mode, depth: int, starts: string -> bool)
    requires last <= i < |s|
    ensures var c, next := s[i], PeekAt(s, i + 1);
            var m' := After(m, c, next);
            out + SplitScript(s[last..i], s[i..], m, depth, starts) ==
            if Ordinary(m, c, next) && c != '(' && c != ')' && depth == 0
               && (c == ';' || (c == '\n' && starts(s[i + 1..])))
            then out + Keep(s[last..i]) + SplitScript(s[i + 1..i + 1], s[i + 1..], m', depth, starts)
            else out + SplitScript(s[last..i + 1], s[i + 1..], m',
                   if !Ordinary(m, c, next) then depth
                   else if c == '(' then depth + 1 else if c == ')' then depth - 1 else depth, starts)
  {
    SplitScriptStep(s[last..i], s, i, m, depth, starts);
    assert s[last..i] + [s[i]] == s[last..i + 1] && s[i + 1..i + 1] == "";
  }

  method SplitScriptStatements(txt: string, starts: string -> bool) returns (out: seq<string>)
    ensures out == SplitScript("", txt, Neutral, 0, starts)
  {
    out := [];
    var st := new TokenState();
    var depth, start, i := 0, 0, 0;
    assert txt[0..0] == "" && txt[0..] == txt;
    while i < |txt|
      invariant 0 <= start <= i <= |txt| && st.Valid()
      invariant out + SplitScript(txt[start..i], txt[i..], st.View(), depth, starts)
             == SplitScript("", txt, Neutral, 0, starts)
    {
      ScriptAdvance(out, txt, start, i, st.View(), depth, starts);
      var ordinary := st.Step(txt, i);
      if ordinary {
        if txt[i] == '(' {
          depth := depth + 1;
        } else if txt[i] == ')' {
          depth := depth - 1;
        } else if depth == 0 && (txt[i] == ';' || (txt[i] == '\n' && starts(txt[i + 1..]))) {
          out := out + Keep(txt[start..i]);
          start := i + 1;
        }
      }
      i := i + 1;
    }
    assert txt[i..] == "" && txt[start..i] == txt[start..];
    EmptyKept();
    if start < |txt| {
      out := out + Keep(txt[start..]);
    }
  }

  lemma EmptyKept()
    ensures Keep("") == []
  {}

  // ---- The printing side ----

  /** One statement ready to be split off again: ended by ';'. */
  function Terminated(s: string): string {
    if s != "" && s[|s| - 1] == ';' then s else s + ";"
  }

  function Joined(parts: seq<string>): string {
    if parts == [] then ""
    else if |parts| == 1 then parts[0]
    else parts[0] + "\n" + Joined(parts[1..])
  }

  /** The statements trimmed, terminated and put on lines of their own. */
  function Printed(stmts: seq<string>): string {
    Joined(seq(|stmts|, i requires 0 <= i < |stmts| => Terminated(Trim(stmts[i]))))
  }

  method JoinStatements(txt: string, starts: string -> bool) returns (text: string)
    ensures text == Printed(SplitScript("", Trim(txt), Neutral, 0, starts))
  {
    var stmts := SplitScriptStatements(Trim(txt), starts);
    ghost var pieces := stmts;
    for i := 0 to |stmts|
      invariant |stmts| == |pieces|
      invariant forall k :: 0 <= k < i ==> stmts[k] == Terminated(Trim(pieces[k]))
      invariant forall k :: i <= k < |stmts| ==> stmts[k] == pieces[k]
    {
      var s := Trim(stmts[i]);
      if s == "" || s[|s| - 1] != ';' {
        s := s + ";";
      }
      stmts := stmts[i := s];
    }
    assert stmts == seq(|pieces|, i requires 0 <= i < |pieces| => Terminated(Trim(pieces[i])));
    return Joined(stmts);
  }
}
