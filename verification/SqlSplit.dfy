/** How SQLite takes a joined text apart: where its tokenizer ends a command, and when the commands
    are the statements that were joined. */
module SqlSplit {
  import opened SqlJoin

  // ----- The tokenizer -----

  /** What the tokenizer is in. `Dash` and `Slash` are behind a character that may begin a comment. A
      parameter is a `Sigil` alone, then a `Parameter` with a name, in which `::` may occur (the colon
      modes are behind the first of the two), and it may end in parentheses (`Suffix`). */
  datatype Mode =
    | Plain | Word
    | Single | Double | Backtick | Bracket
    | Sigil | SigilColon | Parameter | ParameterColon | Suffix
    | Dash | LineComment | Slash | BlockComment | Star

  predicate White(c: char) {
    c == ' ' || c == '\t' || c == '\n' || c == '\r' || c == '\U{000C}'
  }

  /** A character of a name. */
  predicate InName(c: char) {
    'a' <= c <= 'z' || 'A' <= c <= 'Z' || '0' <= c <= '9' || c == '_' || c == '$' || c >= '\U{0080}'
  }

  function FromPlain(c: char): Mode {
    match c
    case '\'' => Single
    case '"' => Double
    case '`' => Backtick
    case '[' => Bracket
    case '-' => Dash
    case '/' => Slash
    case '$' => Sigil
    case '@' => Sigil
    case ':' => Sigil
    case '#' => Sigil
    case _ => if InName(c) then Word else Plain
  }

  function FromSigil(c: char): Mode {
    if InName(c) then Parameter else if c == ':' then SigilColon else FromPlain(c)
  }

  function Next(m: Mode, c: char): Mode {
    match m
    case Plain => FromPlain(c)
    case Word => if InName(c) then Word else FromPlain(c)
    case Single => if c == '\'' then Plain else Single
    case Double => if c == '"' then Plain else Double
    case Backtick => if c == '`' then Plain else Backtick
    case Bracket => if c == ']' then Plain else Bracket
    case Sigil => FromSigil(c)
    case SigilColon => if c == ':' then Sigil else FromSigil(c)
    case Parameter => if c == '(' then Suffix else if c == ':' then ParameterColon else FromSigil(c)
    case ParameterColon => if c == ':' then Parameter else FromSigil(c)
    case Suffix => if c == ')' || White(c) then Plain else Suffix
    case Dash => if c == '-' then LineComment else FromPlain(c)
    case LineComment => if c == '\n' then Plain else LineComment
    case Slash => if c == '*' then BlockComment else FromPlain(c)
    case BlockComment => if c == '*' then Star else BlockComment
    case Star => if c == '/' then Plain else if c == '*' then Star else BlockComment
  }

  /** Outside quotes and comments, where a ';' ends a command. */
  predicate Top(m: Mode) {
    !InQuote(m) && !InComment(m)
  }

  /** The parentheses of a parameter are a quote like any other. */
  predicate InQuote(m: Mode) {
    m.Single? || m.Double? || m.Backtick? || m.Bracket? || m.Suffix?
  }

  predicate InComment(m: Mode) {
    m.LineComment? || m.BlockComment? || m.Star?
  }

  function Walk(m: Mode, s: string): Mode
    decreases s
  {
    if s == "" then m else Walk(Next(m, s[0]), s[1..])
  }

  /** The position of the first ';' outside quotes and comments, or the end of the text. */
  function End(m: Mode, s: string): (e: nat)
    ensures e <= |s|
    ensures e < |s| ==> s[e] == ';'
    decreases s
  {
    if s == "" || (s[0] == ';' && Top(m)) then 0 else 1 + End(Next(m, s[0]), s[1..])
  }

  function AfterLine(s: string): (r: string)
    ensures |r| <= |s|
  {
    if s == "" then "" else if s[0] == '\n' then s[1..] else AfterLine(s[1..])
  }

  function AfterBlock(s: string): (r: string)
    ensures |r| <= |s|
  {
    if |s| < 2 then "" else if s[..2] == "*/" then s[2..] else AfterBlock(s[1..])
  }

  /** The text from its first token on: white space and comments are no tokens, and a ';' with no
      token before it ends nothing. */
  function FromToken(s: string): (r: string)
    ensures |r| <= |s|
    decreases |s|
  {
    if s == "" then ""
    else if White(s[0]) || s[0] == ';' then FromToken(s[1..])
    else if |s| > 1 && s[..2] == "--" then FromToken(AfterLine(s[2..]))
    else if |s| > 1 && s[..2] == "/*" then FromToken(AfterBlock(s[2..]))
    else s
  }

  predicate Commented(s: string) {
    InComment(Walk(Plain, s))
  }

  /** The text without a comment that is still open at its end. */
  function Bare(s: string): (r: string)
    ensures |r| <= |s|
    decreases |s|
  {
    if s == "" || !Commented(s) then s
    else
      var t := s[..|s| - 1];
      if Commented(t) then Bare(t) else if t == "" then "" else t[..|t| - 1]
  }

  /** The commands that SQLite finds in the text, one after the other. */
  function Commands(text: string): seq<string>
    decreases |text|
  {
    var t := FromToken(text);
    if t == "" then []
    else
      var e := End(Plain, t);
      [Bare(t[..e])] + if e == |t| then [] else Commands(t[e + 1..])
  }

  // ----- Statements -----

  /** The command that a statement is by itself. */
  function CommandOf(s: string): string {
    Bare(FromToken(s))
  }

  /** At least one token, and no ';' outside quotes and comments behind it. */
  predicate OneStatement(s: string) {
    FromToken(s) != "" && End(Plain, FromToken(s)) == |FromToken(s)|
  }

  function EndMode(s: string): Mode {
    Walk(Plain, FromToken(s))
  }

  /** Every quote and comment that the statement opens is closed at its end. */
  predicate Closed(s: string) {
    Top(EndMode(s))
  }

  /** Each statement but the last is closed, and the last one does not end inside a quote. */
  predicate Separable(stmts: seq<string>) {
    forall i :: 0 <= i < |stmts| ==> Closed(stmts[i]) || (i == |stmts| - 1 && InComment(EndMode(stmts[i])))
  }

  function CommandsOf(stmts: seq<string>): (r: seq<string>)
    ensures |r| == |stmts| && forall i :: 0 <= i < |stmts| ==> r[i] == CommandOf(stmts[i])
  {
    seq(|stmts|, i requires 0 <= i < |stmts| => CommandOf(stmts[i]))
  }

  // ----- Lemmas about the tokenizer -----

  lemma {:induction false} EndOfConcat(m: Mode, t: string, u: string)
    requires End(m, t) == |t|
    ensures End(m, t + u) == |t| + End(Walk(m, t), u)
    decreases t
  {
    if t == "" {
      assert t + u == u;
    } else {
      assert (t + u)[1..] == t[1..] + u;
      EndOfConcat(Next(m, t[0]), t[1..], u);
    }
  }

  lemma {:induction false} WalkOneMore(m: Mode, s: string, c: char)
    ensures Walk(m, s + [c]) == Next(Walk(m, s), c)
    decreases s
  {
    if s == "" {
      assert (s + [c])[1..] == "";
    } else {
      assert (s + [c])[1..] == s[1..] + [c];
      WalkOneMore(Next(m, s[0]), s[1..], c);
    }
  }

  lemma {:induction false} AfterLineOfConcat(s: string, u: string)
    requires AfterLine(s) != ""
    ensures AfterLine(s + u) == AfterLine(s) + u
  {
    assert (s + u)[1..] == s[1..] + u;
    if s[0] != '\n' {
      AfterLineOfConcat(s[1..], u);
    }
  }

  lemma {:induction false} AfterBlockOfConcat(s: string, u: string)
    requires AfterBlock(s) != ""
    ensures AfterBlock(s + u) == AfterBlock(s) + u
  {
    assert (s + u)[..2] == s[..2] && (s + u)[1..] == s[1..] + u && (s + u)[2..] == s[2..] + u;
    if s[..2] != "*/" {
      AfterBlockOfConcat(s[1..], u);
    }
  }

  /** A ';' behind a statement with a token does not change where its tokens begin. */
  lemma {:induction false} FromTokenOfConcat(s: string, u: string)
    requires FromToken(s) != "" && u != "" && u[0] == ';'
    ensures FromToken(s + u) == FromToken(s) + u
    decreases |s|
  {
    assert (s + u)[1..] == s[1..] + u;
    assert |s| > 1 ==> (s + u)[..2] == s[..2] && (s + u)[2..] == s[2..] + u;
    assert |s| == 1 ==> (s + u)[1] == ';';
    if White(s[0]) || s[0] == ';' {
      FromTokenOfConcat(s[1..], u);
    } else if |s| > 1 && s[..2] == "--" {
      AfterLineOfConcat(s[2..], u);
      FromTokenOfConcat(AfterLine(s[2..]), u);
    } else if |s| > 1 && s[..2] == "/*" {
      AfterBlockOfConcat(s[2..], u);
      FromTokenOfConcat(AfterBlock(s[2..]), u);
    }
  }

  /** What lies outside comments stays, whatever follows it. */
  lemma {:induction false} BareKeeps(p: string, w: string)
    requires !Commented(p) && !Walk(Plain, p).Dash? && !Walk(Plain, p).Slash?
    ensures |Bare(p + w)| >= |p|
  {
    if w == "" {
      assert p + w == p;
    } else {
      var v, c := w[..|w| - 1], w[|w| - 1];
      assert (p + w)[..|p + w| - 1] == p + v;
      BareKeeps(p, v);
      if Commented(p + w) && !Commented(p + v) && v == "" {
        assert p + v == p && p + w == p + [c];
        WalkOneMore(Plain, p, c);
        assert false;
      }
    }
  }

  /** A comment that is open at the end of p goes on in u to the end of the text, or is left before
      the ';' that ends the command. */
  lemma {:induction false} CommentRuns(p: string, u: string)
    requires Commented(p)
    ensures var e := End(Walk(Plain, p), u);
      || (e == |u| && Bare(p + u) == Bare(p))
      || |Bare(p + u[..e])| > |p|
    decreases |u|
  {
    if u == "" {
      assert p + u == p;
    } else {
      var c, rest := u[0], u[1..];
      var p' := p + [c];
      var e' := End(Walk(Plain, p'), rest);
      WalkOneMore(Plain, p, c);
      assert p' + rest == p + u;
      assert p' + rest[..e'] == p + u[..e' + 1];
      if Commented(p') {
        CommentRuns(p', rest);
        assert p'[..|p'| - 1] == p;
      } else {
        BareKeeps(p', rest[..e']);
      }
    }
  }

  // ----- What a text looks like to the tokenizer -----

  /** A character that opens neither a quote nor a comment nor a parameter, and is no ';'. */
  predicate Ordinary(c: char) {
    c !in "'\"`[-/$@:#;"
  }

  predicate Plainly(s: string) {
    forall c :: c in s ==> Ordinary(c)
  }

  lemma {:induction false} WalkOfConcat(m: Mode, t: string, u: string)
    ensures Walk(m, t + u) == Walk(Walk(m, t), u)
    decreases t
  {
    if t == "" {
      assert t + u == u;
    } else {
      assert (t + u)[1..] == t[1..] + u;
      WalkOfConcat(Next(m, t[0]), t[1..], u);
    }
  }

  lemma {:induction false} PlainWalk(m: Mode, s: string)
    requires (m.Plain? || m.Word?) && Plainly(s)
    ensures (Walk(m, s).Plain? || Walk(m, s).Word?) && End(m, s) == |s|
    decreases s
  {
    if s != "" {
      assert Ordinary(s[0]);
      PlainWalk(Next(m, s[0]), s[1..]);
    }
  }

  /** A mode that only one character ends holds every other text. */
  lemma {:induction false} Inside(m: Mode, close: char, q: string)
    requires close !in q && forall c: char :: c != close ==> Next(m, c) == m
    requires !Top(m)
    ensures Walk(m, q) == m && End(m, q) == |q|
    decreases q
  {
    if q != "" {
      Inside(m, close, q[1..]);
    }
  }

  /** Pieces of text follow each other without a ';' that ends a command. */
  lemma Follow(m: Mode, t: string, u: string)
    requires End(m, t) == |t| && End(Walk(m, t), u) == |u|
    ensures End(m, t + u) == |t + u| && Walk(m, t + u) == Walk(Walk(m, t), u)
  {
    EndOfConcat(m, t, u);
    WalkOfConcat(m, t, u);
  }

  lemma OneStep(m: Mode, c: char)
    requires c != ';'
    ensures Walk(m, [c]) == Next(m, c) && End(m, [c]) == 1
  {
    assert [c][1..] == "";
    assert End(Next(m, c), "") == 0;
  }

  function CloseOf(quote: char): char {
    if quote == '[' then ']' else quote
  }

  lemma QuotedText(m: Mode, quote: char, q: string)
    requires Next(m, quote) == FromPlain(quote) && quote in "'\"`[" && CloseOf(quote) !in q
    ensures var s := [quote] + q + [CloseOf(quote)]; Walk(m, s) == Plain && End(m, s) == |s|
  {
    hide Walk, End;
    OneStep(m, quote);
    var inside := Next(m, quote);
    Inside(inside, CloseOf(quote), q);
    Follow(m, [quote], q);
    OneStep(inside, CloseOf(quote));
    Follow(m, [quote] + q, [CloseOf(quote)]);
  }

  lemma WholeIsOneStatement(s: string)
    requires s != "" && !White(s[0]) && s[0] != ';' && s[0] != '-' && s[0] != '/'
    requires End(Plain, s) == |s| && Top(Walk(Plain, s))
    ensures OneStatement(s) && Closed(s) && CommandOf(s) == s
  {
  }

  /** A quote hides whatever is in it: a statement with a quoted text between ordinary ones is one closed
      statement, with any ';' and any comment sign in the quote. */
  lemma QuotesHide(p: string, quote: char, q: string, r: string)
    requires Plainly(p) && Plainly(r) && (p != "" ==> !White(p[0]))
    requires quote in "'\"`[" && CloseOf(quote) !in q
    ensures var s := p + ([quote] + q + [CloseOf(quote)]) + r; OneStatement(s) && Closed(s) && CommandOf(s) == s
  {
    hide Walk, End;
    var s := [quote] + q + [CloseOf(quote)];
    PlainWalk(Plain, p);
    QuotedText(Walk(Plain, p), quote, q);
    Follow(Plain, p, s);
    PlainWalk(Plain, r);
    Follow(Plain, p + s, r);
    assert p != "" ==> Ordinary(p[0]);
    WholeIsOneStatement(p + s + r);
  }

  lemma ClosedBlockComment(m: Mode, q: string)
    requires (m.Plain? || m.Word?) && '*' !in q
    ensures var s := "/*" + q + "*/"; Walk(m, s) == Plain && End(m, s) == |s|
  {
    hide Walk, End;
    OneStep(m, '/');
    OneStep(Slash, '*');
    Follow(m, "/", "*");
    assert "/" + "*" == "/*" && "*" + "/" == "*/";
    Inside(BlockComment, '*', q);
    Follow(m, "/*", q);
    OneStep(BlockComment, '*');
    OneStep(Star, '/');
    Follow(BlockComment, "*", "/");
    Follow(m, "/*" + q, "*/");
  }

  lemma ClosedLineComment(m: Mode, q: string)
    requires (m.Plain? || m.Word?) && '\n' !in q
    ensures var s := "--" + q + "\n"; Walk(m, s) == Plain && End(m, s) == |s|
  {
    hide Walk, End;
    OneStep(m, '-');
    OneStep(Dash, '-');
    Follow(m, "-", "-");
    assert "-" + "-" == "--";
    Inside(LineComment, '\n', q);
    Follow(m, "--", q);
    OneStep(LineComment, '\n');
    Follow(m, "--" + q, "\n");
  }

  /** So does a comment that is closed, behind the first token of a statement. */
  lemma CommentsHide(p: string, line: bool, q: string, r: string)
    requires Plainly(p) && Plainly(r) && p != "" && !White(p[0])
    requires if line then '\n' !in q else '*' !in q
    ensures var s := p + (if line then "--" + q + "\n" else "/*" + q + "*/") + r;
      OneStatement(s) && Closed(s) && CommandOf(s) == s
  {
    hide Walk, End;
    var s := if line then "--" + q + "\n" else "/*" + q + "*/";
    PlainWalk(Plain, p);
    if line {
      ClosedLineComment(Walk(Plain, p), q);
    } else {
      ClosedBlockComment(Walk(Plain, p), q);
    }
    Follow(Plain, p, s);
    PlainWalk(Plain, r);
    Follow(Plain, p + s, r);
    assert Ordinary(p[0]);
    WholeIsOneStatement(p + s + r);
  }

  /** The characters of a name by their codes. */
  lemma NameCharacters(c: char)
    ensures var n := c as int;
      InName(c) <==> 48 <= n <= 57 || 65 <= n <= 90 || 97 <= n <= 122 || n == 95 || n == 36 || n > 127
  {
  }

  predicate Name(s: string) {
    forall c :: c in s ==> InName(c)
  }

  lemma {:induction false} NameWalk(m: Mode, name: string)
    requires (m.Sigil? || m.Parameter? || (name != "" && (m.SigilColon? || m.ParameterColon?))) && Name(name)
    ensures Walk(m, name) == (if name == "" then m else Parameter) && End(m, name) == |name|
    decreases name
  {
    if name != "" {
      assert InName(name[0]);
      NameWalk(Parameter, name[1..]);
    }
  }

  predicate InParentheses(c: char) {
    c !in ") \t\n\r\U{000C}"
  }

  lemma {:induction false} SuffixWalk(q: string)
    requires forall c :: c in q ==> InParentheses(c)
    ensures Walk(Suffix, q) == Suffix && End(Suffix, q) == |q|
  {
    if q != "" {
      assert InParentheses(q[0]);
      SuffixWalk(q[1..]);
    }
  }

  /** What may follow a sigil: a name, in which `::` may stand anywhere; a single ':' begins the next
      parameter. */
  predicate ParameterName(name: string, sep: string, more: string) {
    Name(name) && Name(more) && if sep == ":" then more != "" else sep in ["", "::"] && name + more != ""
  }

  lemma NameText(sigil: char, name: string, sep: string, more: string)
    requires sigil in "$@:#" && ParameterName(name, sep, more)
    ensures var s := [sigil] + name + sep + more; Walk(Plain, s) == Parameter && End(Plain, s) == |s|
  {
    hide Walk, End;
    OneStep(Plain, sigil);
    NameWalk(Sigil, name);
    Follow(Plain, [sigil], name);
    var m := if name == "" then Sigil else Parameter;
    if sep == "" {
      assert [sigil] + name + sep == [sigil] + name;
      NameWalk(m, more);
      Follow(Plain, [sigil] + name, more);
    } else {
      var colon := if name == "" then SigilColon else ParameterColon;
      OneStep(m, ':');
      if sep == ":" {
        NameWalk(colon, more);
      } else {
        OneStep(colon, ':');
        Follow(m, ":", ":");
        assert ":" + ":" == "::";
        NameWalk(m, more);
      }
      Follow(Plain, [sigil] + name, sep);
      Follow(Plain, [sigil] + name + sep, more);
    }
  }

  lemma ParameterText(sigil: char, name: string, sep: string, more: string, q: string)
    requires sigil in "$@:#" && ParameterName(name, sep, more)
    requires forall c :: c in q ==> InParentheses(c)
    ensures var s := [sigil] + name + sep + more + "(" + q + ")"; Walk(Plain, s) == Plain && End(Plain, s) == |s|
  {
    hide Walk, End;
    var s := [sigil] + name + sep + more;
    NameText(sigil, name, sep, more);
    OneStep(Parameter, '(');
    Follow(Plain, s, "(");
    SuffixWalk(q);
    Follow(Plain, s + "(", q);
    OneStep(Suffix, ')');
    Follow(Plain, s + "(" + q, ")");
  }

  /** A text that leaves the tokenizer outside everything, between ordinary ones. */
  lemma InTheMiddle(p: string, s: string, r: string)
    requires Plainly(p) && Plainly(r) && p != "" && !White(p[0])
    requires Walk(Plain, s) == Plain && End(Plain, s) == |s|
    ensures var whole := (p + " ") + s + r; OneStatement(whole) && Closed(whole) && CommandOf(whole) == whole
  {
    hide Walk, End, FromToken, Bare, OneStatement, Closed, CommandOf;
    PlainWalk(Plain, p);
    OneStep(Walk(Plain, p), ' ');
    Follow(Plain, p, " ");
    Follow(Plain, p + " ", s);
    PlainWalk(Plain, r);
    Follow(Plain, p + " " + s, r);
    assert Ordinary(p[0]);
    WholeIsOneStatement(p + " " + s + r);
  }

  /** So do the parentheses of a parameter. */
  lemma ParametersHide(p: string, sigil: char, name: string, sep: string, more: string, q: string, r: string)
    requires Plainly(p) && Plainly(r) && p != "" && !White(p[0])
    requires sigil in "$@:#" && ParameterName(name, sep, more)
    requires forall c :: c in q ==> InParentheses(c)
    ensures var s := (p + " ") + ([sigil] + name + sep + more + "(" + q + ")") + r;
      OneStatement(s) && Closed(s) && CommandOf(s) == s
  {
    ParameterText(sigil, name, sep, more, q);
    InTheMiddle(p, [sigil] + name + sep + more + "(" + q + ")", r);
  }

  /** A parameter without parentheses ends where its name does: a quote right behind it hides what is in
      it as anywhere else. */
  lemma ParametersEnd(p: string, sigil: char, name: string, colon: string, quote: char, q: string, r: string)
    requires Plainly(p) && Plainly(r) && p != "" && !White(p[0])
    requires sigil in "$@:#" && Name(name) && colon in ["", ":"]
    requires quote in "'\"`[" && CloseOf(quote) !in q
    ensures var s := (p + " ") + ([sigil] + name + colon + ([quote] + q + [CloseOf(quote)])) + r;
      OneStatement(s) && Closed(s) && CommandOf(s) == s
  {
    var s := [sigil] + name + colon;
    UnfinishedParameter(sigil, name, colon);
    QuotedText(Walk(Plain, s), quote, q);
    Follow(Plain, s, [quote] + q + [CloseOf(quote)]);
    InTheMiddle(p, s + ([quote] + q + [CloseOf(quote)]), r);
  }

  lemma UnfinishedParameter(sigil: char, name: string, colon: string)
    requires sigil in "$@:#" && Name(name) && colon in ["", ":"]
    ensures var s := [sigil] + name + colon;
      End(Plain, s) == |s| && Walk(Plain, s) in [Sigil, SigilColon, Parameter, ParameterColon]
  {
    hide Walk, End;
    OneStep(Plain, sigil);
    NameWalk(Sigil, name);
    Follow(Plain, [sigil], name);
    if colon == "" {
      assert [sigil] + name + colon == [sigil] + name;
    } else {
      OneStep(if name == "" then Sigil else Parameter, ':');
      Follow(Plain, [sigil] + name, colon);
    }
  }

  /** Without a name there are no parentheses to a parameter: the ';' behind an opening one ends the
      command. */
  lemma NamelessParameter(sigil: char, rest: string)
    requires sigil in "$@:#"
    ensures Commands([sigil] + "(;" + rest) == [[sigil] + "("] + Commands(rest)
  {
    hide Walk, End, Commands, Bare;
    var s := [sigil] + "(";
    OneStep(Plain, sigil);
    OneStep(Sigil, '(');
    Follow(Plain, [sigil], "(");
    WholeIsOneStatement(s);
    FirstCommand(s, rest);
    assert [sigil] + "(;" + rest == s + ";" + rest;
  }

  /** Outside all of these the first ';' ends the command. */
  lemma SemicolonEnds(p: string, rest: string)
    requires Plainly(p) && p != "" && !White(p[0])
    ensures Commands(p + ";" + rest) == [p] + Commands(rest)
    ensures CommandOf(p) == p && OneStatement(p) && Closed(p) && !OneStatement(p + ";" + rest)
  {
    hide Walk, End, Commands, Bare;
    PlainWalk(Plain, p);
    assert Ordinary(p[0]);
    WholeIsOneStatement(p);
    FirstCommand(p, rest);
    EndOfConcat(Plain, p, ";" + rest);
    EndAtSemicolon(Walk(Plain, p), rest);
    assert p + ";" + rest == p + (";" + rest);
  }

  // ----- Join, then take apart -----

  lemma OneCommand(text: string)
    requires FromToken(text) == text != ""
    ensures var e := End(Plain, text);
      Commands(text) == [Bare(text[..e])] + if e == |text| then [] else Commands(text[e + 1..])
  {
  }

  lemma TakeApart(t: string, u: string)
    requires t != "" && FromToken(t + u) == t + u && End(Plain, t) == |t|
    ensures var e := End(Walk(Plain, t), u);
      Commands(t + u) == [Bare(t + u[..e])] + if e == |u| then [] else Commands(u[e + 1..])
  {
    hide Commands, Bare, FromToken, Walk, End;
    EndOfConcat(Plain, t, u);
    OneCommand(t + u);
    var e := End(Walk(Plain, t), u);
    assert (t + u)[..|t| + e] == t + u[..e];
    if e < |u| {
      assert (t + u)[|t| + e + 1..] == u[e + 1..];
    }
  }

  lemma SameTokensSameCommands(s: string, t: string)
    requires FromToken(s) == FromToken(t)
    ensures Commands(s) == Commands(t)
  {
  }

  lemma {:induction false} FromTokenAgain(s: string)
    ensures FromToken(FromToken(s)) == FromToken(s)
    decreases |s|
  {
    if s != "" {
      if White(s[0]) || s[0] == ';' {
        FromTokenAgain(s[1..]);
      } else if |s| > 1 && s[..2] == "--" {
        FromTokenAgain(AfterLine(s[2..]));
      } else if |s| > 1 && s[..2] == "/*" {
        FromTokenAgain(AfterBlock(s[2..]));
      }
    }
  }

  /** The first command of a joined text: the first statement alone if it is closed; if it ends inside
      a comment, perhaps nothing else is left of the text; else more than the statement. */
  lemma FirstCommand(s: string, rest: string)
    requires OneStatement(s)
    ensures var commands := Commands(s + ";" + rest);
      if Closed(s) then commands == [CommandOf(s)] + Commands(rest)
      else if InComment(EndMode(s)) && commands == [CommandOf(s)] then true
      else commands != [] && |commands[0]| > |CommandOf(s)|
  {
    hide Commands, Bare, End, Walk, FromToken;
    var t, u := FromToken(s), ";" + rest;
    assert s + ";" + rest == s + u;
    FromTokenOfConcat(s, u);
    FromTokenAgain(s);
    FromTokenOfConcat(t, u);
    SameTokensSameCommands(s + u, t + u);
    TakeApart(t, u);
    EndAtSemicolon(Walk(Plain, t), rest);
    var e := End(Walk(Plain, t), u);
    if Closed(s) {
      assert t + u[..0] == t && u[1..] == rest;
    } else if InComment(EndMode(s)) {
      CommentRuns(t, u);
      assert u[..|u|] == u;
    } else {
      assert t + u[..e] == (t + ";") + u[1..e];
      WalkOneMore(Plain, t, ';');
      BareKeeps(t + ";", u[1..e]);
    }
  }

  lemma EndAtSemicolon(m: Mode, rest: string)
    ensures End(m, ";" + rest) == if Top(m) then 0 else 1 + End(Next(m, ';'), rest)
  {
    assert (";" + rest)[1..] == rest;
  }

  /** A statement that ends inside a comment, joined as the last one. */
  lemma LastCommand(s: string)
    requires OneStatement(s) && InComment(EndMode(s))
    ensures Commands(s + ";") == [CommandOf(s)]
  {
    hide Commands, Bare, End, Walk, FromToken;
    var t := FromToken(s);
    FromTokenOfConcat(s, ";");
    FromTokenAgain(s);
    FromTokenOfConcat(t, ";");
    SameTokensSameCommands(s + ";", t + ";");
    TakeApart(t, ";");
    StillCommented(t);
  }

  lemma StillCommented(t: string)
    requires Commented(t)
    ensures End(Walk(Plain, t), ";") == 1 && Bare(t + ";"[..1]) == Bare(t)
  {
    EndAtSemicolon(Walk(Plain, t), "");
    assert ";" + "" == ";" && ";"[..1] == ";";
    WalkOneMore(Plain, t, ';');
    assert (t + ";")[..|t + ";"| - 1] == t;
  }

  /** For statements that hold a token and no ';' outside quotes and comments: SQLite finds exactly these
      statements in the joined text, in order, if and only if each but the last closes every quote and
      comment it opens, and the last one does not end inside a quote. */
  lemma {:induction false} JoinedStatementsComeApart(stmts: seq<string>)
    requires forall s :: s in stmts ==> OneStatement(s)
    ensures Commands(Terminated(Present(stmts))) == CommandsOf(stmts) <==> Separable(stmts)
  {
    hide Commands, Terminated, OneStatement, Separable, Closed, CommandOf, EndMode, Joined;
    JoinedIsTerminated(stmts);
    if stmts == [] {
      NothingJoined();
    } else {
      var s, rest := stmts[0], stmts[1..];
      SeparableSplits(stmts);
      HeadAndTail(CommandsOf(stmts), CommandOf(s), CommandsOf(rest));
      JoinedSplits(stmts);
      FirstCommand(s, Joined(rest));
      if rest == [] {
        OneJoined(stmts);
      } else if Closed(s) {
        JoinedIsTerminated(rest);
        JoinedStatementsComeApart(rest);
        HeadAndTail(Commands(Joined(stmts)), CommandOf(s), Commands(Joined(rest)));
      }
    }
  }

  lemma JoinedSplits(stmts: seq<string>)
    requires stmts != []
    ensures Joined(stmts) == stmts[0] + ";" + Joined(stmts[1..])
  {
  }

  lemma NothingJoined()
    ensures Joined([]) == "" && Commands("") == [] && Separable([])
  {
  }

  lemma OneJoined(stmts: seq<string>)
    requires |stmts| == 1 && OneStatement(stmts[0])
    ensures Closed(stmts[0]) || InComment(EndMode(stmts[0])) ==> Commands(Joined(stmts)) == [CommandOf(stmts[0])]
    ensures !Closed(stmts[0]) && !InComment(EndMode(stmts[0])) ==> Commands(Joined(stmts)) != [CommandOf(stmts[0])]
  {
    hide Commands, OneStatement, Closed, CommandOf, EndMode;
    var s := stmts[0];
    NothingJoined();
    assert stmts[1..] == [] && Joined(stmts) == s + ";" + "" == s + ";";
    FirstCommand(s, "");
    if InComment(EndMode(s)) {
      LastCommand(s);
    }
  }

  lemma SeparableSplits(stmts: seq<string>)
    requires stmts != []
    ensures Separable(stmts) <==>
            if |stmts| == 1 then Closed(stmts[0]) || InComment(EndMode(stmts[0])) else Closed(stmts[0]) && Separable(stmts[1..])
  {
    hide Closed, EndMode;
    var rest := stmts[1..];
    if |stmts| > 1 && Closed(stmts[0]) && Separable(rest) {
      forall i | 0 <= i < |stmts| ensures Closed(stmts[i]) || (i == |stmts| - 1 && InComment(EndMode(stmts[i]))) {
        assert i > 0 ==> stmts[i] == rest[i - 1];
      }
    }
    if |stmts| > 1 && Separable(stmts) {
      forall i | 0 <= i < |rest| ensures Closed(rest[i]) || (i == |rest| - 1 && InComment(EndMode(rest[i]))) {
        assert rest[i] == stmts[i + 1];
      }
    }
  }

  lemma HeadAndTail(whole: seq<string>, head: string, tail: seq<string>)
    requires |whole| == |tail| + 1 && whole[0] == head && forall i :: 0 <= i < |tail| ==> whole[i + 1] == tail[i]
    ensures whole == [head] + tail && whole[1..] == tail
  {
  }

  /** A statement that ends inside a line comment swallows its separator and every statement after it
      on the line: none of them is run. */
  lemma CommentSwallowsTheRest(s: string, rest: string)
    requires OneStatement(s) && EndMode(s) == LineComment && '\n' !in rest
    ensures Commands(s + ";" + rest) == [CommandOf(s)]
  {
    hide Commands, Bare, End, Walk, FromToken;
    var t, u := FromToken(s), ";" + rest;
    assert s + ";" + rest == s + u;
    FromTokenOfConcat(s, u);
    FromTokenAgain(s);
    FromTokenOfConcat(t, u);
    SameTokensSameCommands(s + u, t + u);
    TakeApart(t, u);
    LineCommentRuns(t, u);
    assert u[..|u|] == u;
  }

  lemma {:induction false} LineCommentRuns(p: string, u: string)
    requires Walk(Plain, p) == LineComment && '\n' !in u
    ensures End(LineComment, u) == |u| && Bare(p + u) == Bare(p)
    decreases |u|
  {
    if u == "" {
      assert p + u == p;
    } else {
      var p' := p + [u[0]];
      WalkOneMore(Plain, p, u[0]);
      LineCommentRuns(p', u[1..]);
      assert p' + u[1..] == p + u && p'[..|p'| - 1] == p;
    }
  }

  lemma CommentLeftOpen(s: string)
    requires s == "1--"
    ensures OneStatement(s) && EndMode(s) == LineComment && CommandOf(s) == "1"
  {
    var rest := s[1..];
    assert rest == "--" && rest[1..] == "-" && rest[1..][1..] == "";
    assert Walk(Plain, s) == Walk(Word, rest) == Walk(Dash, rest[1..]) == Walk(LineComment, rest[1..][1..]);
    assert End(Plain, s) == 1 + End(Word, rest) == 2 + End(Dash, rest[1..]) == 3 + End(LineComment, rest[1..][1..]);
    var t := s[..2];
    assert t[1..] == "-" && t[1..][1..] == "";
    assert Walk(Plain, t) == Walk(Word, t[1..]) == Walk(Dash, t[1..][1..]) == Dash;
    assert s[..|s| - 1] == t && t[..|t| - 1] == "1";
  }

  lemma OneCharacter(s: string)
    requires s == "2"
    ensures OneStatement(s) && Closed(s) && CommandOf(s) == s && Joined([s]) == "2;"
  {
    assert s[1..] == "" && Walk(Plain, s) == Walk(Word, s[1..]) == Word;
    assert [s][1..] == [];
  }

  /** Such a pair of statements: only the first is run. */
  lemma CommentSwallowsTheNextStatement()
    ensures OneStatement("1--") && CommandOf("1--") == "1" && OneStatement("2") && CommandOf("2") == "2"
    ensures Commands(Terminated(Present(["1--", "2"]))) == ["1"]
  {
    hide Commands, OneStatement, EndMode, CommandOf, Terminated;
    var s, t := "1--", "2";
    CommentLeftOpen(s);
    OneCharacter(t);
    JoinedIsTerminated([s, t]);
    assert [s, t][1..] == [t];
    CommentSwallowsTheRest(s, "2;");
    assert s + ";" + "2;" == "1--;2;";
  }

  // ----- Statements without a token -----

  lemma {:induction false} LineWalk(x: string, u: string)
    ensures if '\n' in x then Walk(LineComment, x) == Walk(Plain, AfterLine(x)) && AfterLine(x + u) == AfterLine(x) + u
            else Walk(LineComment, x) == LineComment
    decreases x
  {
    if x != "" {
      assert (x + u)[1..] == x[1..] + u;
      if x[0] != '\n' {
        LineWalk(x[1..], u);
      }
    }
  }

  lemma {:induction false} BlockWalk(x: string, u: string)
    ensures InComment(Walk(BlockComment, x)) ||
            (Walk(BlockComment, x) == Walk(Plain, AfterBlock(x)) && AfterBlock(x + u) == AfterBlock(x) + u)
    decreases x
  {
    if |x| > 1 {
      assert (x + u)[..2] == x[..2] && (x + u)[1..] == x[1..] + u && (x + u)[2..] == x[2..] + u;
      assert x[1..][1..] == x[2..] && x[..2] == [x[0], x[1]];
      if x[..2] != "*/" {
        BlockWalk(x[1..], u);
      }
    } else if |x| == 1 {
      assert x[1..] == "";
    }
  }

  lemma WalkTwo(s: string)
    requires |s| > 1
    ensures Walk(Plain, s) == Walk(Next(FromPlain(s[0]), s[1]), s[2..])
  {
    assert s[1..][1..] == s[2..];
  }

  /** What follows the comment that a blank text begins with. */
  lemma BehindComment(s: string, u: string) returns (r: string)
    requires s != "" && FromToken(s) == "" && !Commented(s) && !White(s[0]) && s[0] != ';'
    ensures |r| < |s| && FromToken(r) == "" && !Commented(r) && FromToken(s + u) == FromToken(r + u)
  {
    hide Walk, Next;
    r := if s[..2] == "--" then AfterLine(s[2..]) else AfterBlock(s[2..]);
    assert s[..2] == [s[0], s[1]];
    assert (s + u)[..2] == s[..2] && (s + u)[2..] == s[2..] + u;
    WalkTwo(s);
    CommentOpens(s[0]);
    LineWalk(s[2..], u);
    BlockWalk(s[2..], u);
  }

  lemma CommentOpens(c: char)
    ensures c == '-' ==> Next(FromPlain(c), '-') == LineComment
    ensures c == '/' ==> Next(FromPlain(c), '*') == BlockComment
  {
  }

  lemma {:induction false} BlankOfConcat(s: string, u: string)
    requires FromToken(s) == "" && !Commented(s)
    ensures FromToken(s + u) == FromToken(u)
    decreases |s|
  {
    if s == "" {
      assert s + u == u;
    } else {
      assert (s + u)[1..] == s[1..] + u;
      if White(s[0]) || s[0] == ';' {
        BlankOfConcat(s[1..], u);
      } else {
        var r := BehindComment(s, u);
        BlankOfConcat(r, u);
      }
    }
  }

  /** A statement of nothing but white space and closed comments is passed over together with its ';'. */
  lemma BlankStatementIsPassedOver(s: string, rest: string)
    requires FromToken(s) == "" && !Commented(s)
    ensures Commands(s + ";" + rest) == Commands(rest)
  {
    var u := ";" + rest;
    assert s + ";" + rest == s + u && u[1..] == rest;
    BlankOfConcat(s, u);
    SameTokensSameCommands(s + u, u);
    SameTokensSameCommands(u, rest);
  }
}
