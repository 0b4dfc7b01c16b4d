/**
 Tokens of a shell line and the commands built from them. Strings in a command
 are spans of the line, as the parser stores pointers into its buffer.
 */
module ShellSyntax {

  const MAXARGS: nat := 10

  datatype Span = Span(lo: nat, hi: nat)

  /** `<`, `>` and `>>`. */
  datatype Op = In | Out | Append

  datatype Cmd =
    | Exec(args: seq<Span>)
    | Redir(cmd: Cmd, op: Op, file: Span)
    | Pipe(left: Cmd, right: Cmd)
    | List(left: Cmd, right: Cmd)
    | Back(cmd: Cmd)

  predicate IsSpace(c: char) {
    c == ' ' || c == '\t' || c == '\r' || c == '\n' || c == '\U{000B}'
  }

  predicate IsSymbol(c: char) {
    c == '<' || c == '|' || c == '>' || c == '&' || c == ';' || c == '(' || c == ')'
  }

  predicate IsWord(c: char) {
    !IsSpace(c) && !IsSymbol(c)
  }

  // ------------------------------------------------------------ tokens

  datatype Token = End | Symbol(c: char) | AppendToken | Word

  datatype Lexeme = Lexeme(token: Token, lo: nat, hi: nat)

  /** The first place from pos on that is not white space. */
  function Skip(text: string, pos: nat): (r: nat)
    requires pos <= |text|
    ensures pos <= r <= |text| && (r < |text| ==> !IsSpace(text[r]))
    decreases |text| - pos
  {
    if pos < |text| && IsSpace(text[pos]) then Skip(text, pos + 1) else pos
  }

  /** All that is skipped is white space. */
  lemma {:induction false} SkipBlank(text: string, pos: nat, i: nat)
    requires pos <= |text| && pos <= i < Skip(text, pos)
    ensures text[i] in " \t\r\n\U{000B}"
    decreases |text| - pos
  {
    if pos < i {
      SkipBlank(text, pos + 1, i);
    }
  }

  /** The characters of words are all but white space and symbols. */
  lemma WordCharacters(c: char)
    ensures IsWord(c) <==> c !in " \t\r\n\U{000B}" && c !in "<|>&;()"
  {
  }

  /** The end of the word that starts at pos. */
  function WordEnd(text: string, pos: nat): (r: nat)
    requires pos <= |text|
    ensures pos <= r <= |text| && (r < |text| ==> !IsWord(text[r])) && (pos < |text| && IsWord(text[pos]) ==> pos < r)
    decreases |text| - pos
  {
    if pos < |text| && IsWord(text[pos]) then WordEnd(text, pos + 1) else pos
  }

  /** The token after any white space at pos. */
  function Lex(text: string, pos: nat): (x: Lexeme)
    requires pos <= |text|
    ensures pos <= x.lo <= x.hi <= |text| && (x.token != End ==> x.lo < x.hi) && (x.token == End <==> x.lo == |text|)
  {
    var s := Skip(text, pos);
    if s == |text| then Lexeme(End, s, s)
    else if text[s] == '>' && s + 1 < |text| && text[s + 1] == '>' then Lexeme(AppendToken, s, s + 2)
    else if IsSymbol(text[s]) then Lexeme(Symbol(text[s]), s, s + 1)
    else Lexeme(Word, s, WordEnd(text, s))
  }

  lemma {:induction false} WordEndIsWord(text: string, pos: nat)
    requires pos <= |text|
    ensures forall i :: pos <= i < WordEnd(text, pos) ==> IsWord(text[i])
    decreases |text| - pos
  {
    if pos < |text| && IsWord(text[pos]) {
      WordEndIsWord(text, pos + 1);
    }
  }

  /** A maximal run of word characters. */
  predicate IsSpan(text: string, w: Span) {
    && w.lo < w.hi <= |text| && (forall i :: w.lo <= i < w.hi ==> IsWord(text[i]))
    && (w.hi < |text| ==> !IsWord(text[w.hi]))
  }

  // ------------------------------------------------------------ what a line holds

  /** A word, a redirection with its file, or any other symbol. */
  datatype Item = Arg(w: Span) | Redirect(op: Op, w: Span) | Mark(token: Token)

  function RedirOp(t: Token): (op: Op)
    requires t in {Symbol('<'), Symbol('>'), AppendToken}
  {
    if t == Symbol('<') then In else if t == Symbol('>') then Out else Append
  }

  predicate IsRedir(t: Token) {
    t in {Symbol('<'), Symbol('>'), AppendToken}
  }

  /** Everything on the line from pos on, each token once. */
  function ItemsFrom(text: string, pos: nat): multiset<Item>
    requires pos <= |text|
    decreases |text| - pos
  {
    var x := Lex(text, pos);
    if x.token == End then multiset{}
    else if x.token == Word then multiset{Arg(Span(x.lo, x.hi))} + ItemsFrom(text, x.hi)
    else if IsRedir(x.token) && Lex(text, x.hi).token == Word then
      var y := Lex(text, x.hi);
      multiset{Redirect(RedirOp(x.token), Span(y.lo, y.hi))} + ItemsFrom(text, y.hi)
    else multiset{Mark(x.token)} + ItemsFrom(text, x.hi)
  }

  function ArgItems(args: seq<Span>): multiset<Item> {
    if args == [] then multiset{} else ArgItems(args[..|args| - 1]) + multiset{Arg(args[|args| - 1])}
  }

  /** What of the line a command accounts for; parentheses leave no trace in it. */
  function ItemsOf(cmd: Cmd): multiset<Item> {
    match cmd
    case Exec(args) => ArgItems(args)
    case Redir(c, op, w) => ItemsOf(c) + multiset{Redirect(op, w)}
    case Pipe(l, r) => ItemsOf(l) + multiset{Mark(Symbol('|'))} + ItemsOf(r)
    case List(l, r) => ItemsOf(l) + multiset{Mark(Symbol(';'))} + ItemsOf(r)
    case Back(c) => ItemsOf(c) + multiset{Mark(Symbol('&'))}
  }

  function Parens(n: nat): multiset<Item> {
    multiset{}[Mark(Symbol('(')) := n][Mark(Symbol(')')) := n]
  }

  // ------------------------------------------------------------ shape of a command

  predicate ArgsIn(text: string, args: seq<Span>, lo: nat, hi: nat) {
    && |args| < MAXARGS
    && (forall i {:trigger args[i]} :: 0 <= i < |args| ==>
          IsSpan(text, args[i]) && lo <= args[i].lo && args[i].hi <= hi)
    && (forall i, j {:trigger args[i], args[j]} :: 0 <= i < j < |args| ==> args[i].hi <= args[j].lo)
  }

  /** No file redirected to in the outer layers of cmd starts at or after n. */
  predicate FilesBefore(cmd: Cmd, n: nat) {
    cmd.Redir? ==> cmd.file.hi <= n && FilesBefore(cmd.cmd, n)
  }

  /**
   The command comes from text[lo..hi]: words are whole words in the order of the line, left before
   right, argument lists fit argv.
   */
  predicate From(text: string, cmd: Cmd, lo: nat, hi: nat) {
    match cmd
    case Exec(args) => ArgsIn(text, args, lo, hi)
    case Redir(c, _, w) => From(text, c, lo, hi) && IsSpan(text, w) && lo <= w.lo && w.hi <= hi && FilesBefore(c, w.lo)
    case Pipe(l, r) => exists m :: lo <= m <= hi && From(text, l, lo, m) && From(text, r, m, hi)
    case List(l, r) => exists m :: lo <= m <= hi && From(text, l, lo, m) && From(text, r, m, hi)
    case Back(c) => From(text, c, lo, hi)
  }

  lemma {:induction false} FromWider(text: string, cmd: Cmd, lo: nat, hi: nat, lo': nat, hi': nat)
    requires From(text, cmd, lo, hi) && lo' <= lo && hi <= hi'
    ensures From(text, cmd, lo', hi')
    decreases cmd
  {
    match cmd
    case Exec(args) =>
    case Redir(c, op, w) => FromWider(text, c, lo, hi, lo', hi');
    case Back(c) => FromWider(text, c, lo, hi, lo', hi');
    case Pipe(l, r) =>
      var m: nat :| lo <= m <= hi && From(text, l, lo, m) && From(text, r, m, hi);
      FromWider(text, l, lo, m, lo', m);
      FromWider(text, r, m, hi, m, hi');
    case List(l, r) =>
      var m: nat :| lo <= m <= hi && From(text, l, lo, m) && From(text, r, m, hi);
      FromWider(text, l, lo, m, lo', m);
      FromWider(text, r, m, hi, m, hi');
  }

  // ------------------------------------------------------------ which lines are commands

  /**
   Where a left-to-right reading of a line stands: before a command, in its words, after a closing
   parenthesis, after an ampersand.
   */
  datatype Place = Start | Words(n: nat) | AfterBlock | AfterAmp

  /**
   Whether the rest of a line is well formed, reading tokens one by one with a count of open parentheses:
   a command is a list of fewer than MAXARGS words and any redirections, or a parenthesized line and redirections.
   */
  predicate Scan(text: string, pos: nat, place: Place, depth: nat)
    requires pos <= |text|
    decreases |text| - pos
  {
    var x := Lex(text, pos);
    if x.token == End then depth == 0
    else if x.token == Word then
      match place
      case Start => Scan(text, x.hi, Words(1), depth)
      case Words(n) => n + 1 < MAXARGS && Scan(text, x.hi, Words(n + 1), depth)
      case _ => false
    else if IsRedir(x.token) then
      var y := Lex(text, x.hi);
      y.token == Word && !place.AfterAmp? && Scan(text, y.hi, if place.Start? then Words(0) else place, depth)
    else if x.token == Symbol('(') then place.Start? && Scan(text, x.hi, Start, depth + 1)
    else if x.token == Symbol(')') then depth > 0 && Scan(text, x.hi, AfterBlock, depth - 1)
    else if x.token == Symbol('|') then !place.AfterAmp? && Scan(text, x.hi, Start, depth)
    else if x.token == Symbol('&') then Scan(text, x.hi, AfterAmp, depth)
    else Scan(text, x.hi, Start, depth)
  }

  /** The line is a well-formed command. */
  predicate WellFormed(text: string) {
    Scan(text, 0, Start, 0)
  }
}
