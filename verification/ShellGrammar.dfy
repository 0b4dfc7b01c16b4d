/**
 The grammar of the shell's command language, on the characters of a line: which command
 a stretch of the line stands for, and that it stands for one command only.

   line      =  item [ ; line ]
   item      =  pipeline { & }
   pipeline  =  command [ | pipeline ]
   command   =  { word or redirection }  or  ( line ) { redirection }
   */
module ShellGrammar {
  import opened ShellSyntax

  /** Symbol c stands at m. */
  predicate Sym(text: string, m: nat, c: char) {
    m < |text| && text[m] == c
  }

  /** Where the text goes on after the character at m and white space. */
  function After(text: string, m: nat): (r: nat)
    requires m < |text|
    ensures m < r <= |text|
  {
    Skip(text, m + 1)
  }

  /** Word w stands at m, and after it the text goes on at next. */
  predicate WordAt(text: string, m: nat, w: Span, next: nat) {
    IsSpan(text, w) && w.lo == m && next == Skip(text, w.hi)
  }

  /** A redirection stands at m: `<`, `>` or `>>`, and the file. */
  predicate RedirAt(text: string, m: nat, op: Op, file: Span, next: nat) {
    && m < |text|
    && (match op
        case In => text[m] == '<'
        case Out => text[m] == '>' && !Sym(text, m + 1, '>')
        case Append => text[m] == '>' && Sym(text, m + 1, '>'))
    && WordAt(text, Skip(text, if op == Append then m + 2 else m + 1), file, next)
  }

  /** Words and redirections, in any order: the words are args, and cmd is core with the redirections around it. */
  ghost predicate Parts(text: string, lo: nat, hi: nat, core: Cmd, args: seq<Span>, cmd: Cmd)
    decreases hi, 1
  {
    && lo <= hi <= |text|
    && (|| (args == [] && cmd == core && hi == Skip(text, lo))
        || exists m {:trigger LastPart(text, lo, m, hi, core, args, cmd)} :: LastPart(text, lo, m, hi, core, args, cmd))
  }

  /** The last of them stands at m. */
  ghost predicate LastPart(text: string, lo: nat, m: nat, hi: nat, core: Cmd, args: seq<Span>, cmd: Cmd)
    decreases hi, 0
  {
    && m < hi
    && (|| (&& args != [] && Parts(text, lo, m, core, args[..|args| - 1], cmd)
            && WordAt(text, m, args[|args| - 1], hi))
        || (&& cmd.Redir? && Parts(text, lo, m, core, args, cmd.cmd)
            && RedirAt(text, m, cmd.op, cmd.file, hi)))
  }

  /** A list of fewer than MAXARGS words, with redirections. */
  ghost predicate IsSimple(text: string, lo: nat, hi: nat, cmd: Cmd) {
    exists args {:trigger Parts(text, lo, hi, Exec(args), args, cmd)} ::
      |args| < MAXARGS && Parts(text, lo, hi, Exec(args), args, cmd)
  }

  /** A line in parentheses, with redirections. */
  ghost predicate IsBlock(text: string, lo: nat, hi: nat, cmd: Cmd)
    decreases hi, 1
  {
    && lo <= |text| && Sym(text, Skip(text, lo), '(')
    && exists m, inner {:trigger BlockAt(text, After(text, Skip(text, lo)), m, hi, inner, cmd)} ::
         BlockAt(text, After(text, Skip(text, lo)), m, hi, inner, cmd)
  }

  /** The line from lo on stands for inner, and its parenthesis is closed at m. */
  ghost predicate BlockAt(text: string, lo: nat, m: nat, hi: nat, inner: Cmd, cmd: Cmd)
    decreases hi, 0
  {
    m < hi && IsLine(text, lo, m, inner) && Sym(text, m, ')') && Parts(text, After(text, m), hi, inner, [], cmd)
  }

  ghost predicate IsCommand(text: string, lo: nat, hi: nat, cmd: Cmd)
    decreases hi, 2
  {
    lo <= hi <= |text| && (IsSimple(text, lo, hi, cmd) || IsBlock(text, lo, hi, cmd))
  }

  ghost predicate IsPipeline(text: string, lo: nat, hi: nat, cmd: Cmd)
    decreases hi, 3, |text| - lo, 1
  {
    && lo <= hi <= |text|
    && (|| IsCommand(text, lo, hi, cmd)
        || exists m {:trigger PipeAt(text, lo, m, hi, cmd)} :: PipeAt(text, lo, m, hi, cmd))
  }

  /** Its first bar stands at m. */
  ghost predicate PipeAt(text: string, lo: nat, m: nat, hi: nat, cmd: Cmd)
    requires lo <= |text|
    decreases hi, 3, |text| - lo, 0
  {
    && lo <= m < hi && cmd.Pipe? && IsCommand(text, lo, m, cmd.left) && Sym(text, m, '|')
    && IsPipeline(text, After(text, m), hi, cmd.right)
  }

  /** Ampersands from lo to hi make cmd of base. */
  ghost predicate IsAmps(text: string, lo: nat, hi: nat, base: Cmd, cmd: Cmd)
    decreases |text| - lo
  {
    && lo <= hi <= |text|
    && ((lo == hi && cmd == base) || (Sym(text, lo, '&') && IsAmps(text, After(text, lo), hi, Back(base), cmd)))
  }

  ghost predicate IsItem(text: string, lo: nat, hi: nat, cmd: Cmd)
    decreases hi, 5
  {
    exists m, base {:trigger ItemAt(text, lo, m, hi, base, cmd)} :: ItemAt(text, lo, m, hi, base, cmd)
  }

  /** Its pipeline, which stands for base, ends at m. */
  ghost predicate ItemAt(text: string, lo: nat, m: nat, hi: nat, base: Cmd, cmd: Cmd)
    decreases hi, 4
  {
    m <= hi && IsPipeline(text, lo, m, base) && IsAmps(text, m, hi, base, cmd)
  }

  ghost predicate IsLine(text: string, lo: nat, hi: nat, cmd: Cmd)
    decreases hi, 6, |text| - lo, 1
  {
    && lo <= hi <= |text|
    && (|| IsItem(text, lo, hi, cmd)
        || exists m {:trigger ListAt(text, lo, m, hi, cmd)} :: ListAt(text, lo, m, hi, cmd))
  }

  /** Its first semicolon stands at m. */
  ghost predicate ListAt(text: string, lo: nat, m: nat, hi: nat, cmd: Cmd)
    requires lo <= |text|
    decreases hi, 6, |text| - lo, 0
  {
    && lo <= m < hi && cmd.List? && IsItem(text, lo, m, cmd.left) && Sym(text, m, ';')
    && IsLine(text, After(text, m), hi, cmd.right)
  }

  // ------------------------------------------------------------ one stretch, one command

  /** A character that can go on with a command, a pipeline, an item or a line that could also end before it. */
  predicate Extends(text: string, h: nat, more: string) {
    h < |text| && (IsWord(text[h]) || text[h] in "<>(" + more)
  }

  /** Two readings from the same place: they are the same, or one goes on where the other ends. */
  predicate Agree(text: string, more: string, h1: nat, c1: Cmd, h2: nat, c2: Cmd) {
    || (h1 == h2 && c1 == c2)
    || (h1 < h2 && Extends(text, h1, more))
    || (h2 < h1 && Extends(text, h2, more))
  }

  /** A word or a redirection stands at m, and the text goes on at next. */
  ghost predicate PartAt(text: string, m: nat, next: nat) {
    || (exists w {:trigger WordAt(text, m, w, next)} :: WordAt(text, m, w, next))
    || (exists op, w {:trigger RedirAt(text, m, op, w, next)} :: RedirAt(text, m, op, w, next))
  }

  lemma OneSpan(text: string, v: Span, w: Span)
    requires IsSpan(text, v) && IsSpan(text, w) && v.lo == w.lo
    ensures v == w
  {
  }

  /** What stands at m is determined. */
  lemma OnePart(text: string, m: nat, n1: nat, n2: nat)
    requires PartAt(text, m, n1) && PartAt(text, m, n2)
    ensures n1 == n2
  {
    if m < |text| && IsWord(text[m]) {
      var v :| WordAt(text, m, v, n1);
      var w :| WordAt(text, m, w, n2);
      OneSpan(text, v, w);
    } else {
      var p, v :| RedirAt(text, m, p, v, n1);
      var q, w :| RedirAt(text, m, q, w, n2);
      OneRedir(text, m, p, v, n1, q, w, n2);
    }
  }

  lemma OneRedir(text: string, m: nat, p: Op, v: Span, n1: nat, q: Op, w: Span, n2: nat)
    requires RedirAt(text, m, p, v, n1) && RedirAt(text, m, q, w, n2)
    ensures p == q && v == w && n1 == n2
  {
    OneSpan(text, v, w);
  }

  lemma SkipStays(text: string, pos: nat)
    requires pos <= |text|
    ensures Skip(text, Skip(text, pos)) == Skip(text, pos)
  {
  }

  /** A sequence of parts starts and ends where there is no white space. */
  lemma {:induction false} PartsEnd(text: string, lo: nat, hi: nat, core: Cmd, args: seq<Span>, cmd: Cmd)
    requires Parts(text, lo, hi, core, args, cmd)
    ensures Skip(text, lo) <= hi && Skip(text, hi) == hi
    decreases hi
  {
    SkipStays(text, lo);
    if !(args == [] && cmd == core && hi == Skip(text, lo)) {
      var m: nat :| LastPart(text, lo, m, hi, core, args, cmd);
      var args1, cmd1 := BeforeLast(text, lo, m, hi, core, args, cmd);
      PartsEnd(text, lo, m, core, args1, cmd1);
    }
  }

  /** What comes before the last part. */
  lemma BeforeLast(text: string, lo: nat, m: nat, hi: nat, core: Cmd, args: seq<Span>, cmd: Cmd)
    returns (args1: seq<Span>, cmd1: Cmd)
    requires LastPart(text, lo, m, hi, core, args, cmd)
    ensures Parts(text, lo, m, core, args1, cmd1) && PartAt(text, m, hi) && Skip(text, hi) == hi <= |text|
    ensures || (args != [] && args1 == args[..|args| - 1] && cmd == cmd1 && WordAt(text, m, args[|args| - 1], hi))
            || (args == args1 && cmd.Redir? && cmd.cmd == cmd1 && RedirAt(text, m, cmd.op, cmd.file, hi))
  {
    if args != [] && Parts(text, lo, m, core, args[..|args| - 1], cmd) && WordAt(text, m, args[|args| - 1], hi) {
      args1, cmd1 := args[..|args| - 1], cmd;
      SkipStays(text, args[|args| - 1].hi);
    } else {
      args1, cmd1 := args, cmd.cmd;
      SkipStays(text, cmd.file.hi);
    }
  }

  /** A part stands at h, and it ends no later than at hi. */
  ghost predicate PartWithin(text: string, h: nat, hi: nat) {
    exists next {:trigger PartAt(text, h, next)} :: 0 <= next <= hi && PartAt(text, h, next)
  }

  /** Two sequences of parts from the same place. */
  lemma {:induction false} PartsAgree(text: string, lo: nat, h1: nat, core1: Cmd, args1: seq<Span>, cmd1: Cmd, h2: nat,
                                      core2: Cmd, args2: seq<Span>, cmd2: Cmd)
    requires Parts(text, lo, h1, core1, args1, cmd1) && Parts(text, lo, h2, core2, args2, cmd2)
    ensures h1 == h2 ==> args1 == args2 && (core1 == core2 ==> cmd1 == cmd2)
    ensures h1 < h2 ==> PartWithin(text, h1, h2)
    ensures h2 < h1 ==> PartWithin(text, h2, h1)
    decreases h1 + h2, if h1 > h2 then 1 else 0
  {
    PartsEnd(text, lo, h1, core1, args1, cmd1);
    PartsEnd(text, lo, h2, core2, args2, cmd2);
    if h1 > h2 {
      PartsAgree(text, lo, h2, core2, args2, cmd2, h1, core1, args1, cmd1);
    } else if m2: nat :| LastPart(text, lo, m2, h2, core2, args2, cmd2) {
      var a2, c2 := BeforeLast(text, lo, m2, h2, core2, args2, cmd2);
      PartsEnd(text, lo, m2, core2, a2, c2);
      if h1 < h2 {
        PartsAgree(text, lo, h1, core1, args1, cmd1, m2, core2, a2, c2);
        GoesOn(text, h1, m2, h2);
      } else {
        var m1: nat :| LastPart(text, lo, m1, h1, core1, args1, cmd1);
        var a1, c1 := BeforeLast(text, lo, m1, h1, core1, args1, cmd1);
        PartsAgree(text, lo, m1, core1, a1, c1, m2, core2, a2, c2);
        GoesOn(text, m1, m2, h2);
        GoesOn(text, m2, m1, h1);
        SameLast(text, lo, m1, h1, core1, args1, cmd1, a1, c1, core2, args2, cmd2, a2, c2);
      }
    } else if m1: nat :| LastPart(text, lo, m1, h1, core1, args1, cmd1) {
      var a1, c1 := BeforeLast(text, lo, m1, h1, core1, args1, cmd1);
      PartsEnd(text, lo, m1, core1, a1, c1);
    }
  }

  /** The part at m2 ends at h2. Another reading that has come to h1 is past it or has a part to go on with. */
  lemma GoesOn(text: string, h1: nat, m2: nat, h2: nat)
    requires m2 < h2 && PartAt(text, m2, h2)
    requires h1 < m2 ==> PartWithin(text, h1, m2)
    requires m2 < h1 ==> PartWithin(text, m2, h1)
    ensures h1 <= m2 ==> PartWithin(text, h1, h2)
    ensures m2 < h1 ==> h2 <= h1
  {
    if h1 < m2 {
      var next: nat :| next <= m2 && PartAt(text, h1, next);
    } else if m2 < h1 {
      var next: nat :| next <= h1 && PartAt(text, m2, next);
      OnePart(text, m2, next, h2);
    }
  }

  lemma SameLast(text: string, lo: nat, m: nat, hi: nat, core1: Cmd, args1: seq<Span>, cmd1: Cmd, a1: seq<Span>,
                 c1: Cmd,
                 core2: Cmd, args2: seq<Span>, cmd2: Cmd, a2: seq<Span>, c2: Cmd)
    requires a1 == a2 && (core1 == core2 ==> c1 == c2)
    requires || (args1 != [] && a1 == args1[..|args1| - 1] && cmd1 == c1 && WordAt(text, m, args1[|args1| - 1], hi))
             || (args1 == a1 && cmd1.Redir? && cmd1.cmd == c1 && RedirAt(text, m, cmd1.op, cmd1.file, hi))
    requires || (args2 != [] && a2 == args2[..|args2| - 1] && cmd2 == c2 && WordAt(text, m, args2[|args2| - 1], hi))
             || (args2 == a2 && cmd2.Redir? && cmd2.cmd == c2 && RedirAt(text, m, cmd2.op, cmd2.file, hi))
    ensures args1 == args2 && (core1 == core2 ==> cmd1 == cmd2)
  {
    if m < |text| && IsWord(text[m]) {
      OneSpan(text, args1[|args1| - 1], args2[|args2| - 1]);
      assert args1 == a1 + [args1[|args1| - 1]] && args2 == a2 + [args2[|args2| - 1]];
    } else {
      OneRedir(text, m, cmd1.op, cmd1.file, hi, cmd2.op, cmd2.file, hi);
    }
  }

  lemma PartExtends(text: string, h: nat, hi: nat, more: string)
    requires PartWithin(text, h, hi)
    ensures Extends(text, h, more)
  {
    var next: nat :| next <= hi && PartAt(text, h, next);
    if w :| WordAt(text, h, w, next) {
    } else {
      var op, w :| RedirAt(text, h, op, w, next);
    }
  }

  /** A simple command and a block cannot start at the same place, unless the former is empty. */
  lemma SimpleOrBlock(text: string, lo: nat, h1: nat, args: seq<Span>, c1: Cmd, h2: nat, c2: Cmd)
    requires Parts(text, lo, h1, Exec(args), args, c1) && IsBlock(text, lo, h2, c2) && h2 <= |text|
    ensures h1 < h2 && Extends(text, h1, "")
  {
    var p := Skip(text, lo);
    assert Parts(text, lo, p, c1, [], c1);
    PartsAgree(text, lo, p, c1, [], c1, h1, Exec(args), args, c1);
    PartsEnd(text, lo, h1, Exec(args), args, c1);
    if p < h1 {
      PartNotOpen(text, p, h1);
    }
    var m: nat, inner :| BlockAt(text, After(text, p), m, h2, inner, c2);
    assert IsLine(text, After(text, p), m, inner);
  }

  lemma PartNotOpen(text: string, h: nat, hi: nat)
    requires PartWithin(text, h, hi)
    ensures !Sym(text, h, '(')
  {
    var next: nat :| next <= hi && PartAt(text, h, next);
    if w :| WordAt(text, h, w, next) {
    } else {
      var op, w :| RedirAt(text, h, op, w, next);
    }
  }

  lemma SimpleAgree(text: string, lo: nat, h1: nat, c1: Cmd, h2: nat, c2: Cmd)
    requires IsSimple(text, lo, h1, c1) && IsSimple(text, lo, h2, c2)
    ensures Agree(text, "", h1, c1, h2, c2)
  {
    var a1 :| |a1| < MAXARGS && Parts(text, lo, h1, Exec(a1), a1, c1);
    var a2 :| |a2| < MAXARGS && Parts(text, lo, h2, Exec(a2), a2, c2);
    PartsAgree(text, lo, h1, Exec(a1), a1, c1, h2, Exec(a2), a2, c2);
    if h1 < h2 {
      PartExtends(text, h1, h2, "");
    } else if h2 < h1 {
      PartExtends(text, h2, h1, "");
    }
  }

  lemma {:induction false} BlockAgree(text: string, lo: nat, h1: nat, c1: Cmd, h2: nat, c2: Cmd)
    requires IsBlock(text, lo, h1, c1) && IsBlock(text, lo, h2, c2)
    ensures Agree(text, "", h1, c1, h2, c2)
    decreases |text| - lo, 0
  {
    var start := After(text, Skip(text, lo));
    var m1: nat, i1 :| BlockAt(text, start, m1, h1, i1, c1);
    var m2: nat, i2 :| BlockAt(text, start, m2, h2, i2, c2);
    LineAgree(text, start, m1, i1, m2, i2);
    PartsAgree(text, After(text, m1), h1, i1, [], c1, h2, i2, [], c2);
    if h1 < h2 {
      PartExtends(text, h1, h2, "");
    } else if h2 < h1 {
      PartExtends(text, h2, h1, "");
    }
  }

  lemma {:induction false} CommandAgree(text: string, lo: nat, h1: nat, c1: Cmd, h2: nat, c2: Cmd)
    requires IsCommand(text, lo, h1, c1) && IsCommand(text, lo, h2, c2)
    ensures Agree(text, "", h1, c1, h2, c2)
    decreases |text| - lo, 1
  {
    if IsSimple(text, lo, h1, c1) && IsSimple(text, lo, h2, c2) {
      SimpleAgree(text, lo, h1, c1, h2, c2);
    } else if IsBlock(text, lo, h1, c1) && IsBlock(text, lo, h2, c2) {
      BlockAgree(text, lo, h1, c1, h2, c2);
    } else if IsSimple(text, lo, h1, c1) {
      var args :| |args| < MAXARGS && Parts(text, lo, h1, Exec(args), args, c1);
      SimpleOrBlock(text, lo, h1, args, c1, h2, c2);
    } else {
      var args :| |args| < MAXARGS && Parts(text, lo, h2, Exec(args), args, c2);
      SimpleOrBlock(text, lo, h2, args, c2, h1, c1);
    }
  }

  lemma {:induction false} PipelineAgree(text: string, lo: nat, h1: nat, c1: Cmd, h2: nat, c2: Cmd)
    requires IsPipeline(text, lo, h1, c1) && IsPipeline(text, lo, h2, c2)
    ensures Agree(text, "|", h1, c1, h2, c2)
    decreases |text| - lo, 2
  {
    if IsCommand(text, lo, h1, c1) && IsCommand(text, lo, h2, c2) {
      CommandAgree(text, lo, h1, c1, h2, c2);
    } else if IsCommand(text, lo, h1, c1) {
      var m2: nat :| PipeAt(text, lo, m2, h2, c2);
      CommandAgree(text, lo, h1, c1, m2, c2.left);
    } else if IsCommand(text, lo, h2, c2) {
      var m1: nat :| PipeAt(text, lo, m1, h1, c1);
      CommandAgree(text, lo, m1, c1.left, h2, c2);
    } else {
      var m1: nat :| PipeAt(text, lo, m1, h1, c1);
      var m2: nat :| PipeAt(text, lo, m2, h2, c2);
      CommandAgree(text, lo, m1, c1.left, m2, c2.left);
      PipelineAgree(text, After(text, m1), h1, c1.right, h2, c2.right);
    }
  }

  lemma {:induction false} AmpsAgree(text: string, lo: nat, base: Cmd, h1: nat, c1: Cmd, h2: nat, c2: Cmd)
    requires IsAmps(text, lo, h1, base, c1) && IsAmps(text, lo, h2, base, c2)
    ensures || (h1 == h2 && c1 == c2) || (h1 < h2 && Sym(text, h1, '&')) || (h2 < h1 && Sym(text, h2, '&'))
    decreases |text| - lo
  {
    if lo != h1 && lo != h2 {
      AmpsAgree(text, After(text, lo), Back(base), h1, c1, h2, c2);
    }
  }

  lemma ItemAgree(text: string, lo: nat, h1: nat, c1: Cmd, h2: nat, c2: Cmd)
    requires IsItem(text, lo, h1, c1) && IsItem(text, lo, h2, c2)
    ensures Agree(text, "|&", h1, c1, h2, c2)
    decreases |text| - lo, 3
  {
    var m1: nat, b1 :| ItemAt(text, lo, m1, h1, b1, c1);
    var m2: nat, b2 :| ItemAt(text, lo, m2, h2, b2, c2);
    PipelineAgree(text, lo, m1, b1, m2, b2);
    if m1 == m2 {
      AmpsAgree(text, m1, b1, h1, c1, h2, c2);
    }
  }

  /** Two readings of lines from the same place. */
  lemma {:induction false} LineAgree(text: string, lo: nat, h1: nat, c1: Cmd, h2: nat, c2: Cmd)
    requires IsLine(text, lo, h1, c1) && IsLine(text, lo, h2, c2)
    ensures Agree(text, "|&;", h1, c1, h2, c2)
    decreases |text| - lo, 4
  {
    if IsItem(text, lo, h1, c1) && IsItem(text, lo, h2, c2) {
      ItemAgree(text, lo, h1, c1, h2, c2);
    } else if IsItem(text, lo, h1, c1) {
      var m2: nat :| ListAt(text, lo, m2, h2, c2);
      ItemAgree(text, lo, h1, c1, m2, c2.left);
    } else if IsItem(text, lo, h2, c2) {
      var m1: nat :| ListAt(text, lo, m1, h1, c1);
      ItemAgree(text, lo, m1, c1.left, h2, c2);
    } else {
      var m1: nat :| ListAt(text, lo, m1, h1, c1);
      var m2: nat :| ListAt(text, lo, m2, h2, c2);
      ItemAgree(text, lo, m1, c1.left, m2, c2.left);
      LineAgree(text, After(text, m1), h1, c1.right, h2, c2.right);
    }
  }

  /** The grammar is unambiguous: a stretch of text stands for one command at most. */
  lemma OneCommand(text: string, lo: nat, hi: nat, c1: Cmd, c2: Cmd)
    requires IsLine(text, lo, hi, c1) && IsLine(text, lo, hi, c2)
    ensures c1 == c2
  {
    LineAgree(text, lo, hi, c1, hi, c2);
  }
}
