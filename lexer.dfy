/** The tokenizer (tokenize_string, globber.cpp:49-107): a four-state
    character machine that splits one script line into tokens. */
module Lexer {
  import opened Common

  datatype State = Normal | Quoted | Escaped | Comment

  /** The machine's variables: its state, the token being built and the tokens
      emitted so far. */
  datatype Lexer = Lexer(state: State, current: string, tokens: seq<string>)

  const Start := Lexer(Normal, "", [])

  /** The characters that end a token outside quotes. */
  predicate IsDelimiter(c: char)
  {
    c == ' ' || c == '\t' || c == ',' || c == '#' || c == '\r'
  }

  /** Emits the token being built, unless it is empty. */
  function Flush(tokens: seq<string>, current: string): (r: seq<string>)
    ensures |current| > 0 ==> r == tokens + [current]
    ensures |current| == 0 ==> r == tokens
  {
    if |current| > 0 then tokens + [current] else tokens
  }

  /** One character's transition (the body of the `for (char c : str)` loop). */
  function Step(l: Lexer, c: char): (r: Lexer)
  {
    match l.state
    case Normal =>
      if c == '"' then Lexer(Quoted, l.current + [c], l.tokens)
      else if IsDelimiter(c) then
        var flushed := Flush(l.tokens, l.current);
        if c == '#' then Lexer(Comment, "", flushed)
        else if c == ',' then Lexer(Normal, "", flushed + [","])
        else Lexer(Normal, "", flushed)
      else Lexer(Normal, l.current + [c], l.tokens)
    case Quoted =>
      if c == '\\' then Lexer(Escaped, l.current, l.tokens)
      else if c == '"' then Lexer(Normal, l.current + [c], l.tokens)
      else Lexer(Quoted, l.current + [c], l.tokens)
    case Escaped => Lexer(Quoted, l.current + [c], l.tokens)
    case Comment => l
  }

  /** The machine after reading `s`, starting from `l`. */
  function RunFrom(l: Lexer, s: string): (r: Lexer)
    decreases |s|
  {
    if s == [] then l else Step(RunFrom(l, s[..|s| - 1]), s[|s| - 1])
  }

  function Run(s: string): (r: Lexer)
  {
    RunFrom(Start, s)
  }

  /** The tokens of a line: the machine's output plus the final flush. */
  function Tokens(line: string): (r: seq<string>)
  {
    var l := Run(line);
    Flush(l.tokens, l.current)
  }

  /** tokenize_string, as the loop over the line's characters. */
  method Tokenize(line: string) returns (tokens: seq<string>)
    ensures tokens == Tokens(line)
    ensures forall t :: t in tokens ==> |t| > 0
  {
    tokens := [];
    var current: string := "";
    var state := Normal;
    for i := 0 to |line|
      invariant Lexer(state, current, tokens) == Run(line[..i])
    {
      var c := line[i];
      assert line[..i + 1][..i] == line[..i];
      match state {
        case Normal =>
          if c == '"' {
            current := current + [c];
            state := Quoted;
          } else if IsDelimiter(c) {
            if |current| > 0 {
              tokens := tokens + [current];
            }
            current := "";
            if c == '#' {
              state := Comment;
            } else if c == ',' {
              tokens := tokens + [","];
            }
          } else {
            current := current + [c];
          }
        case Quoted =>
          if c == '\\' {
            state := Escaped;
          } else {
            current := current + [c];
          }
          if c == '"' {
            state := Normal;
          }
        case Escaped =>
          current := current + [c];
          state := Quoted;
        case Comment =>
      }
    }
    assert line[..|line|] == line;
    if |current| > 0 {
      tokens := tokens + [current];
    }
    TokensNonEmpty(line);
  }

  // ---------------------------------------------------------------------------
  // Properties of the tokenizer

  /** The machine never emits an empty token. */
  predicate AllNonEmpty(ts: seq<string>)
  {
    forall t :: t in ts ==> |t| > 0
  }

  lemma {:induction false} RunNonEmpty(l: Lexer, s: string)
    requires AllNonEmpty(l.tokens)
    ensures AllNonEmpty(RunFrom(l, s).tokens)
    decreases |s|
  {
    if s != [] {
      RunNonEmpty(l, s[..|s| - 1]);
    }
  }

  lemma TokensNonEmpty(line: string)
    ensures forall t :: t in Tokens(line) ==> |t| > 0
  {
    RunNonEmpty(Start, line);
  }

  /** Reading `s` then `t` is reading `s + t`. */
  lemma {:induction false} RunFromAppend(l: Lexer, s: string, t: string)
    ensures RunFrom(l, s + t) == RunFrom(RunFrom(l, s), t)
    decreases |t|
  {
    if t == [] {
      assert s + t == s;
    } else {
      assert (s + t)[..|s + t| - 1] == s + t[..|t| - 1];
      RunFromAppend(l, s, t[..|t| - 1]);
    }
  }

  /** Tokens already emitted play no part in what comes next. */
  lemma {:induction false} RunFromEmitted(st: State, cur: string, emitted: seq<string>, t: string)
    ensures var a := RunFrom(Lexer(st, cur, emitted), t);
            var b := RunFrom(Lexer(st, cur, []), t);
            a.state == b.state && a.current == b.current && a.tokens == emitted + b.tokens
    decreases |t|
  {
    if t != [] {
      RunFromEmitted(st, cur, emitted, t[..|t| - 1]);
    }
  }

  /** Once the line so far is outside quotes, a machine that starts afresh on the
      rest produces the rest's own tokens after those already emitted. */
  lemma FreshStart(emitted: seq<string>, t: string)
    ensures var l := RunFrom(Lexer(Normal, "", emitted), t);
            Flush(l.tokens, l.current) == emitted + Tokens(t)
  {
    RunFromEmitted(Normal, "", emitted, t);
  }

  /** A comma outside quotes is always the one-character token "," and splits
      the line into two independently tokenized halves. */
  lemma CommaIsOwnToken(s: string, t: string)
    requires Run(s).state == Normal
    ensures Tokens(s + [','] + t) == Tokens(s) + [","] + Tokens(t)
  {
    RunFromAppend(Start, s, [',']);
    RunFromAppend(Start, s + [','], t);
    FreshStart(Tokens(s) + [","], t);
  }

  /** A space, tab or carriage return outside quotes separates tokens and
      produces none of its own. */
  lemma BlankSeparates(s: string, d: char, t: string)
    requires Run(s).state == Normal
    requires d == ' ' || d == '\t' || d == '\r'
    ensures Tokens(s + [d] + t) == Tokens(s) + Tokens(t)
  {
    RunFromAppend(Start, s, [d]);
    RunFromAppend(Start, s + [d], t);
    FreshStart(Tokens(s), t);
  }

  lemma {:induction false} CommentAbsorbs(l: Lexer, t: string)
    requires l.state == Comment
    ensures RunFrom(l, t) == l
    decreases |t|
  {
    if t != [] {
      CommentAbsorbs(l, t[..|t| - 1]);
    }
  }

  /** Everything after an unquoted `#` produces no tokens. */
  lemma CommentDiscardsRest(s: string, t: string)
    requires Run(s).state == Normal
    ensures Tokens(s + ['#'] + t) == Tokens(s)
  {
    RunFromAppend(Start, s, ['#']);
    RunFromAppend(Start, s + ['#'], t);
    CommentAbsorbs(Run(s + ['#']), t);
  }

  // ---------------------------------------------------------------------------
  // Quoted strings: a backslash makes the next character literal

  /** One character written for the script: `"` and `\` get a backslash. */
  function EscapeChar(c: char): (r: string)
  {
    if c == '"' || c == '\\' then ['\\', c] else [c]
  }

  /** `q` written for the script, every character escaped as needed. */
  function Escape(q: string): (r: string)
    ensures |r| >= |q|
  {
    if q == [] then [] else EscapeChar(q[0]) + Escape(q[1..])
  }

  function Quote(q: string): (r: string)
  {
    ['"'] + q + ['"']
  }

  lemma EscapedCharReadsBack(cur: string, emitted: seq<string>, c: char)
    ensures RunFrom(Lexer(Quoted, cur, emitted), EscapeChar(c)) == Lexer(Quoted, cur + [c], emitted)
  {
    var l := Lexer(Quoted, cur, emitted);
    var e := EscapeChar(c);
    if c == '"' || c == '\\' {
      assert e[..1] == ['\\'] && e[..1][..0] == [];
      assert RunFrom(l, e[..1]) == Lexer(Escaped, cur, emitted);
    } else {
      assert e[..0] == [];
    }
  }

  /** Inside quotes, the escaped form of `q` is read back as `q` itself. */
  lemma {:induction false} EscapedReadsBack(cur: string, emitted: seq<string>, q: string)
    ensures RunFrom(Lexer(Quoted, cur, emitted), Escape(q)) == Lexer(Quoted, cur + q, emitted)
    decreases |q|
  {
    if q == [] {
      assert cur + q == cur;
    } else {
      RunFromAppend(Lexer(Quoted, cur, emitted), EscapeChar(q[0]), Escape(q[1..]));
      EscapedCharReadsBack(cur, emitted, q[0]);
      EscapedReadsBack(cur + [q[0]], emitted, q[1..]);
      FirstThenRest(cur, q);
    }
  }

  /** A quoted string keeps its opening and closing quote marks, its escapes
      are undone, and the line is back outside quotes afterwards. */
  lemma QuotedToken(q: string)
    ensures Run(Quote(Escape(q))).state == Normal
    ensures Tokens(Quote(Escape(q))) == [Quote(q)]
  {
    var e := Escape(q);
    assert Quote(e) == ['"'] + e + ['"'];
    RunFromAppend(Start, ['"'] + e, ['"']);
    RunFromAppend(Start, ['"'], e);
    assert RunFrom(Start, ['"']) == Lexer(Quoted, ['"'], []);
    EscapedReadsBack(['"'], [], q);
  }

  /** A word with no delimiter and no quote mark in it. */
  predicate IsPlainWord(w: string)
  {
    |w| > 0 && forall c :: c in w ==> !IsDelimiter(c) && c != '"'
  }

  lemma {:induction false} PlainRun(w: string)
    requires forall c :: c in w ==> !IsDelimiter(c) && c != '"'
    ensures Run(w) == Lexer(Normal, w, [])
    decreases |w|
  {
    if w != [] {
      assert w[..|w| - 1] + [w[|w| - 1]] == w;
      PlainRun(w[..|w| - 1]);
    }
  }

  /** A plain word is one token, and the line is outside quotes after it. */
  lemma PlainWordToken(w: string)
    requires IsPlainWord(w)
    ensures Run(w).state == Normal && Tokens(w) == [w]
  {
    PlainRun(w);
  }
}
