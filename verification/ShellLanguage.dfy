/**
 The language of the shell: a line has a derivation in the grammar exactly when the
 left-to-right reading accepts it, so that the parser finds the one command of every line
 that stands for a command, and of no other line.
 */
module ShellLanguage {
  import opened Shell
  import opened ShellGrammar
  import opened ShellSyntax

  // ------------------------------------------------------------ tokens and characters

  lemma WordLexed(text: string, m: nat, w: Span, next: nat)
    requires WordAt(text, m, w, next)
    ensures Lex(text, m) == Lexeme(Word, m, w.hi)
  {
    WordEndIsWord(text, m);
    OneSpan(text, Span(m, WordEnd(text, m)), w);
  }

  lemma SymbolLexed(text: string, m: nat, c: char)
    requires Sym(text, m, c) && c in "|&;()"
    ensures Lex(text, m) == Lexeme(Symbol(c), m, m + 1)
  {
  }

  lemma RedirLexed(text: string, m: nat, op: Op, w: Span, next: nat)
    requires RedirAt(text, m, op, w, next)
    ensures var x := Lex(text, m);
            IsRedir(x.token) && RedirOp(x.token) == op && Lex(text, x.hi) == Lexeme(Word, w.lo, w.hi)
  {
    var x := Lex(text, m);
    WordLexed(text, Skip(text, x.hi), w, next);
    SkipTwice(text, x.hi);
  }

  // ------------------------------------------------------------ derivations are read to their end

  lemma WordStep(text: string, m: nat, w: Span, next: nat, n: nat, d: nat)
    requires WordAt(text, m, w, next) && n + 1 < MAXARGS
    ensures Scan(text, m, Words(n), d) == Scan(text, next, Words(n + 1), d)
  {
    WordLexed(text, m, w, next);
    ScanSkip(text, w.hi, Words(n + 1), d);
  }

  lemma RedirStep(text: string, m: nat, op: Op, w: Span, next: nat, place: Place, d: nat)
    requires RedirAt(text, m, op, w, next) && (place.Words? || place == AfterBlock)
    ensures Scan(text, m, place, d) == Scan(text, next, place, d)
  {
    RedirLexed(text, m, op, w, next);
    ScanSkip(text, w.hi, place, d);
  }

  lemma OpenStep(text: string, lo: nat, d: nat)
    requires lo <= |text| && Sym(text, Skip(text, lo), '(')
    ensures Scan(text, lo, Start, d) == Scan(text, After(text, Skip(text, lo)), Start, d + 1)
  {
    SymbolLexed(text, Skip(text, lo), '(');
    SkipTwice(text, lo);
    ScanSkip(text, Skip(text, lo) + 1, Start, d + 1);
  }

  lemma CloseStep(text: string, m: nat, d: nat)
    requires Sym(text, m, ')')
    ensures Scan(text, m, AfterAmp, d + 1) == Scan(text, After(text, m), AfterBlock, d)
  {
    SymbolLexed(text, m, ')');
    ScanSkip(text, m + 1, AfterBlock, d);
  }

  lemma SeparatorStep(text: string, m: nat, c: char, place: Place, d: nat)
    requires Sym(text, m, c) && ((c == '|' && place == AfterBlock) || c == ';')
    ensures Scan(text, m, place, d) == Scan(text, After(text, m), Start, d)
  {
    SymbolLexed(text, m, c);
    ScanSkip(text, m + 1, Start, d);
  }

  lemma AmpStep(text: string, m: nat, place: Place, d: nat)
    requires Sym(text, m, '&')
    ensures Scan(text, m, place, d) == Scan(text, After(text, m), AfterAmp, d)
  {
    SymbolLexed(text, m, '&');
    ScanSkip(text, m + 1, AfterAmp, d);
  }

  function Later(place: Place, n: nat): Place {
    if place.Words? then Words(place.n + n) else place
  }

  /** The last of some parts, after those that leave the words args1 and the command cmd1. */
  lemma LastScan(text: string, m: nat, hi: nat, args: seq<Span>, cmd: Cmd, args1: seq<Span>, cmd1: Cmd, place: Place,
                 d: nat)
    requires m < hi <= |text|
    requires || (args != [] && args1 == args[..|args| - 1] && cmd == cmd1 && WordAt(text, m, args[|args| - 1], hi))
             || (args == args1 && cmd.Redir? && cmd.cmd == cmd1 && RedirAt(text, m, cmd.op, cmd.file, hi))
    requires (place.Words? && place.n + |args| < MAXARGS) || (place == AfterBlock && args == [])
    ensures Scan(text, m, Later(place, |args1|), d) == Scan(text, hi, Later(place, |args|), d)
  {
    if args1 == args {
      RedirStep(text, m, cmd.op, cmd.file, hi, Later(place, |args|), d);
    } else {
      LastWord(text, m, hi, args[|args| - 1], place, |args|, d);
    }
  }

  lemma LastWord(text: string, m: nat, hi: nat, w: Span, place: Place, n: nat, d: nat)
    requires WordAt(text, m, w, hi) && place.Words? && 0 < n && place.n + n < MAXARGS
    ensures Scan(text, m, Later(place, n - 1), d) == Scan(text, hi, Later(place, n), d)
  {
    WordStep(text, m, w, hi, place.n + n - 1, d);
  }

  lemma {:induction false} PartsScan(text: string, lo: nat, hi: nat, core: Cmd, args: seq<Span>, cmd: Cmd, place: Place,
                                     d: nat)
    requires Parts(text, lo, hi, core, args, cmd)
    requires (place.Words? && place.n + |args| < MAXARGS) || (place == AfterBlock && args == [])
    ensures Scan(text, lo, place, d) == Scan(text, hi, Later(place, |args|), d)
    decreases hi
  {
    if m: nat :| LastPart(text, lo, m, hi, core, args, cmd) {
      var args1, cmd1 := BeforeLast(text, lo, m, hi, core, args, cmd);
      PartsScan(text, lo, m, core, args1, cmd1, place, d);
      LastScan(text, m, hi, args, cmd, args1, cmd1, place, d);
    } else {
      ScanSkip(text, lo, place, d);
    }
  }

  /** A simple command does not start with a parenthesis, nor does what comes after an empty one. */
  lemma SimpleStart(text: string, lo: nat, hi: nat, args: seq<Span>, cmd: Cmd)
    requires Parts(text, lo, hi, Exec(args), args, cmd) && !Extends(text, hi, "")
    ensures NextIsNot(text, lo, "(") && (!NextIsNot(text, hi, "|)&;") || Lex(text, hi).token == End)
  {
    PartsEnd(text, lo, hi, Exec(args), args, cmd);
    var p := Skip(text, lo);
    assert Parts(text, lo, p, cmd, [], cmd);
    PartsAgree(text, lo, p, cmd, [], cmd, hi, Exec(args), args, cmd);
    if p < hi {
      PartNotOpen(text, p, hi);
    }
  }

  lemma SimpleScan(text: string, lo: nat, hi: nat, cmd: Cmd, d: nat)
    requires IsSimple(text, lo, hi, cmd) && !Extends(text, hi, "")
    ensures Scan(text, lo, Start, d) == Scan(text, hi, AfterBlock, d)
  {
    var args :| |args| < MAXARGS && Parts(text, lo, hi, Exec(args), args, cmd);
    SimpleStart(text, lo, hi, args, cmd);
    StartIsWords(text, lo, d);
    PartsScan(text, lo, hi, Exec(args), args, cmd, Words(0), d);
    WordsDone(text, hi, |args|, d);
  }

  /** From the closing parenthesis on. */
  lemma BlockRest(text: string, m: nat, hi: nat, inner: Cmd, cmd: Cmd, d: nat)
    requires Sym(text, m, ')') && Parts(text, After(text, m), hi, inner, [], cmd)
    ensures Scan(text, m, AfterAmp, d + 1) == Scan(text, hi, AfterBlock, d)
  {
    CloseStep(text, m, d);
    PartsScan(text, After(text, m), hi, inner, [], cmd, AfterBlock, d);
  }

  /** Up to the closing parenthesis. */
  lemma {:induction false} BlockHead(text: string, lo: nat, m: nat, inner: Cmd, d: nat)
    requires lo <= |text| && Sym(text, Skip(text, lo), '(') && Sym(text, m, ')')
    requires IsLine(text, After(text, Skip(text, lo)), m, inner)
    ensures Scan(text, lo, Start, d) == Scan(text, m, AfterAmp, d + 1)
    decreases |text| - lo, 0
  {
    OpenStep(text, lo, d);
    LineScan(text, After(text, Skip(text, lo)), m, inner, d + 1);
  }

  lemma BlockScan(text: string, lo: nat, hi: nat, cmd: Cmd, d: nat)
    requires IsBlock(text, lo, hi, cmd) && hi <= |text|
    ensures Scan(text, lo, Start, d) == Scan(text, hi, AfterBlock, d)
    decreases |text| - lo, 1
  {
    var m: nat, inner :| BlockAt(text, After(text, Skip(text, lo)), m, hi, inner, cmd);
    BlockHead(text, lo, m, inner, d);
    BlockRest(text, m, hi, inner, cmd, d);
  }

  lemma {:induction false} CommandScan(text: string, lo: nat, hi: nat, cmd: Cmd, d: nat)
    requires IsCommand(text, lo, hi, cmd) && !Extends(text, hi, "")
    ensures Scan(text, lo, Start, d) == Scan(text, hi, AfterBlock, d)
    decreases |text| - lo, 2
  {
    if IsSimple(text, lo, hi, cmd) {
      SimpleScan(text, lo, hi, cmd, d);
    } else {
      BlockScan(text, lo, hi, cmd, d);
    }
  }

  lemma {:induction false} PipelineScan(text: string, lo: nat, hi: nat, cmd: Cmd, d: nat)
    requires IsPipeline(text, lo, hi, cmd) && !Extends(text, hi, "|")
    ensures Scan(text, lo, Start, d) == Scan(text, hi, AfterBlock, d)
    decreases |text| - lo, 3
  {
    if IsCommand(text, lo, hi, cmd) {
      CommandScan(text, lo, hi, cmd, d);
    } else {
      var m: nat :| PipeAt(text, lo, m, hi, cmd);
      CommandScan(text, lo, m, cmd.left, d);
      SeparatorStep(text, m, '|', AfterBlock, d);
      PipelineScan(text, After(text, m), hi, cmd.right, d);
    }
  }

  lemma {:induction false} AmpsScan(text: string, lo: nat, hi: nat, base: Cmd, cmd: Cmd, d: nat)
    requires IsAmps(text, lo, hi, base, cmd) && lo < hi
    ensures Scan(text, lo, AfterBlock, d) == Scan(text, lo, AfterAmp, d) == Scan(text, hi, AfterAmp, d)
    decreases |text| - lo
  {
    AmpStep(text, lo, AfterBlock, d);
    AmpStep(text, lo, AfterAmp, d);
    if After(text, lo) < hi {
      AmpsScan(text, After(text, lo), hi, Back(base), cmd, d);
    }
  }

  /** Where nothing goes on with a pipeline, it makes no difference whether an ampersand came before. */
  lemma EitherPlace(text: string, pos: nat, d: nat)
    requires pos <= |text| && Skip(text, pos) == pos && !Extends(text, pos, "|&")
    ensures Scan(text, pos, AfterBlock, d) == Scan(text, pos, AfterAmp, d)
  {
  }

  lemma ItemScan(text: string, lo: nat, hi: nat, cmd: Cmd, d: nat)
    requires IsItem(text, lo, hi, cmd) && !Extends(text, hi, "|&") && lo <= hi <= |text| && Skip(text, hi) == hi
    ensures Scan(text, lo, Start, d) == Scan(text, hi, AfterAmp, d)
    decreases |text| - lo, 4
  {
    var m: nat, base :| ItemAt(text, lo, m, hi, base, cmd);
    PipelineScan(text, lo, m, base, d);
    if m < hi {
      AmpsScan(text, m, hi, base, cmd, d);
    } else {
      EitherPlace(text, hi, d);
    }
  }

  lemma {:induction false} LineScan(text: string, lo: nat, hi: nat, cmd: Cmd, d: nat)
    requires IsLine(text, lo, hi, cmd) && !Extends(text, hi, "|&;") && Skip(text, hi) == hi
    ensures Scan(text, lo, Start, d) == Scan(text, hi, AfterAmp, d)
    decreases |text| - lo, 5
  {
    if IsItem(text, lo, hi, cmd) {
      ItemScan(text, lo, hi, cmd, d);
    } else {
      var m: nat :| ListAt(text, lo, m, hi, cmd);
      ItemScan(text, lo, m, cmd.left, d);
      SeparatorStep(text, m, ';', AfterAmp, d);
      LineScan(text, After(text, m), hi, cmd.right, d);
    }
  }

  /** A line that stands for a command is accepted. */
  lemma Accepted(text: string, cmd: Cmd)
    requires IsLine(text, 0, |text|, cmd)
    ensures WellFormed(text)
  {
    LineScan(text, 0, |text|, cmd, 0);
  }

  /** What a parser that gives each accepted line a command of the grammar gives: exactly the grammar. */
  lemma ParsedExactly(text: string, r: Parsed, cmd: Cmd)
    requires r.Ok? <==> WellFormed(text)
    requires r.Ok? ==> IsLine(text, 0, |text|, r.cmd)
    ensures IsLine(text, 0, |text|, cmd) <==> r.Ok? && r.cmd == cmd
  {
    if IsLine(text, 0, |text|, cmd) {
      Accepted(text, cmd);
      OneCommand(text, 0, |text|, r.cmd, cmd);
    }
  }
}
