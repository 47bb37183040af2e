/** The boolean expression language the compiled filters are written in: comparisons
    joined by `and` / `or`, parentheses, and quoted strings (a double quote, any other
    characters, a double quote).

    `Shape` is an expression as it is written out, with every parenthesis it carries;
    printing a shape and reading the text back gives the expression it stands for,
    whichever of `and` and `or` binds tighter, unless a comparison uses one of these
    two words as its field. */
module FilterGrammar {
  import opened Prelude
  import opened Text

  datatype Conn = And | Or

  datatype Op = Eq | Ne | Ge | Le

  datatype Token = Open | Close | Keyword(conn: Conn) | Sign(op: Op) | Word(text: string) | Quoted(text: string)

  datatype Expr =
    | Cmp(field: string, op: Op, lit: string, quoted: bool)
    | Join(conn: Conn, parts: seq<Expr>)

  function Other(c: Conn): Conn { if c == And then Or else And }

  /** The connectives are reserved words: they are never names or values. */
  predicate Reserved(w: string) { w == "and" || w == "or" }

  function WordToken(w: string): Token {
    if w == "and" then Keyword(And) else if w == "or" then Keyword(Or) else Word(w)
  }

  // ---------- Tokens ----------

  predicate IsWordChar(c: char) {
    !IsSpace(c) && c != '(' && c != ')' && c != '"' && c != '=' && c != '!' && c != '<' && c != '>'
  }

  predicate IsWord(s: string) {
    s != "" && forall c :: c in s ==> IsWordChar(c)
  }

  function WordLen(s: string): (n: nat)
    ensures n <= |s|
    ensures s != "" && IsWordChar(s[0]) ==> n > 0
  {
    if s == "" || !IsWordChar(s[0]) then 0 else 1 + WordLen(s[1..])
  }

  /** Characters before the first double quote. */
  function QuoteLen(s: string): (n: nat)
    ensures n <= |s|
  {
    if s == "" || s[0] == '"' then 0 else 1 + QuoteLen(s[1..])
  }

  function SignText(op: Op): string {
    match op
    case Eq => "=="
    case Ne => "!="
    case Ge => ">="
    case Le => "<="
  }

  function SignOf(c: char): Option<Op> {
    if c == '=' then Some(Eq) else if c == '!' then Some(Ne)
    else if c == '>' then Some(Ge) else if c == '<' then Some(Le) else None
  }

  function Before(t: seq<Token>, rest: Option<seq<Token>>): Option<seq<Token>> {
    if rest.None? then None else Some(t + rest.value)
  }

  function Tokenize(s: string): Option<seq<Token>>
    decreases |s|
  {
    if s == "" then Some([])
    else if IsSpace(s[0]) then Tokenize(s[1..])
    else if s[0] == '(' then Before([Open], Tokenize(s[1..]))
    else if s[0] == ')' then Before([Close], Tokenize(s[1..]))
    else if s[0] == '"' then
      var n := QuoteLen(s[1..]);
      if n == |s| - 1 then None else Before([Quoted(s[1..n + 1])], Tokenize(s[n + 2..]))
    else if IsWordChar(s[0]) then
      var n := WordLen(s);
      Before([WordToken(s[..n])], Tokenize(s[n..]))
    else if |s| >= 2 && s[1] == '=' && SignOf(s[0]).Some? then
      Before([Sign(SignOf(s[0]).value)], Tokenize(s[2..]))
    else None
  }

  // ---------- Expressions ----------

  function Collapse(conn: Conn, parts: seq<Expr>): Expr {
    if |parts| == 1 then parts[0] else Join(conn, parts)
  }

  function ParseAtom(tight: Conn, toks: seq<Token>): (r: Option<(Expr, seq<Token>)>)
    ensures r.Some? ==> |r.value.1| < |toks|
    decreases |toks|, 0
  {
    if toks == [] then None
    else if toks[0].Open? then
      var inner := ParseJoined(tight, Other(tight), toks[1..]);
      if inner.None? || inner.value.1 == [] || !inner.value.1[0].Close? then None
      else Some((inner.value.0, inner.value.1[1..]))
    else if toks[0].Word? && |toks| >= 3 && toks[1].Sign? && (toks[2].Word? || toks[2].Quoted?) then
      Some((Cmp(toks[0].text, toks[1].op, toks[2].text, toks[2].Quoted?), toks[3..]))
    else None
  }

  /** One item of a run joined by `conn`: the tighter connective's items are atoms, the
      looser one's are runs of the tighter. */
  function ParseItem(tight: Conn, conn: Conn, toks: seq<Token>): (r: Option<(Expr, seq<Token>)>)
    ensures r.Some? ==> |r.value.1| < |toks|
    decreases |toks|, if conn == tight then 1 else 4
  {
    if conn == tight then ParseAtom(tight, toks) else ParseJoined(tight, tight, toks)
  }

  function ParseRun(tight: Conn, conn: Conn, toks: seq<Token>): (r: Option<(seq<Expr>, seq<Token>)>)
    ensures r.Some? ==> |r.value.1| < |toks| && r.value.0 != []
    decreases |toks|, if conn == tight then 2 else 5
  {
    var first := ParseItem(tight, conn, toks);
    if first.None? then None
    else
      var (e, rest) := first.value;
      if rest != [] && rest[0] == Keyword(conn) then
        var more := ParseRun(tight, conn, rest[1..]);
        if more.None? then None else Some(([e] + more.value.0, more.value.1))
      else Some(([e], rest))
  }

  function ParseJoined(tight: Conn, conn: Conn, toks: seq<Token>): (r: Option<(Expr, seq<Token>)>)
    ensures r.Some? ==> |r.value.1| < |toks|
    decreases |toks|, if conn == tight then 3 else 6
  {
    var run := ParseRun(tight, conn, toks);
    if run.None? then None else Some((Collapse(conn, run.value.0), run.value.1))
  }

  /** Reads a whole filter. A blank text is the filter that restricts nothing. */
  function ParseFilter(tight: Conn, text: string): Option<Expr> {
    var toks := Tokenize(text);
    if toks.None? then None
    else if toks.value == [] then Some(Join(And, []))
    else
      var r := ParseJoined(tight, Other(tight), toks.value);
      if r.Some? && r.value.1 == [] then Some(r.value.0) else None
  }

  // ---------- Shapes: expressions as written ----------

  /** `pad` is white space between a field name and its operator. */
  datatype Shape =
    | Leaf(field: string, pad: string, op: Op, lit: string, quoted: bool)
    | Paren(conn: Conn, items: seq<Shape>)

  predicate Writable(s: Shape) {
    match s
    case Leaf(field, pad, _, lit, quoted) =>
      IsWord(field) && (forall c :: c in pad ==> IsSpace(c)) && (if quoted then '"' !in lit else IsWord(lit) && !Reserved(lit))
    case Paren(_, items) => items != [] && forall i :: 0 <= i < |items| ==> Writable(items[i])
  }

  predicate AllWritable(items: seq<Shape>) {
    forall i :: 0 <= i < |items| ==> Writable(items[i])
  }

  /** No comparison has a reserved word for its field. */
  predicate Plain(s: Shape) {
    match s
    case Leaf(field, _, _, _, _) => !Reserved(field)
    case Paren(_, items) => forall i :: 0 <= i < |items| ==> Plain(items[i])
  }

  predicate AllPlain(items: seq<Shape>) {
    forall i :: 0 <= i < |items| ==> Plain(items[i])
  }

  function Separator(c: Conn): string { if c == And then " and " else " or " }

  function Print(s: Shape): string
    decreases s, 1
  {
    match s
    case Leaf(field, pad, op, lit, quoted) =>
      field + pad + SignText(op) + (if quoted then "\"" + lit + "\"" else lit)
    case Paren(conn, items) => "(" + PrintRun(conn, items) + ")"
  }

  function PrintRun(conn: Conn, items: seq<Shape>): string
    decreases items, 0
  {
    if items == [] then ""
    else if |items| == 1 then Print(items[0])
    else Print(items[0]) + Separator(conn) + PrintRun(conn, items[1..])
  }

  function Tokens(s: Shape): seq<Token>
    decreases s, 1
  {
    match s
    case Leaf(field, _, op, lit, quoted) => [WordToken(field), Sign(op), if quoted then Quoted(lit) else Word(lit)]
    case Paren(conn, items) => [Open] + TokensRun(conn, items) + [Close]
  }

  function TokensRun(conn: Conn, items: seq<Shape>): seq<Token>
    decreases items, 0
  {
    if items == [] then []
    else if |items| == 1 then Tokens(items[0])
    else Tokens(items[0]) + [Keyword(conn)] + TokensRun(conn, items[1..])
  }

  /** The expression a shape stands for: parentheses gone, connectives kept. */
  function Stands(s: Shape): Expr
    decreases s, 1
  {
    match s
    case Leaf(field, _, op, lit, quoted) => Cmp(field, op, lit, quoted)
    case Paren(conn, items) => Collapse(conn, StandsAll(items))
  }

  function StandsAll(items: seq<Shape>): (es: seq<Expr>)
    ensures |es| == |items|
    ensures forall i :: 0 <= i < |items| ==> es[i] == Stands(items[i])
    decreases items, 0
  {
    if items == [] then [] else [Stands(items[0])] + StandsAll(items[1..])
  }

  // ---------- Reading tokens back ----------

  predicate Ends(rest: seq<Token>) {
    rest == [] || rest[0].Close?
  }

  lemma {:induction false} AtomParses(tight: Conn, s: Shape, rest: seq<Token>)
    requires Writable(s)
    ensures ParseAtom(tight, Tokens(s) + rest) == if Plain(s) then Some((Stands(s), rest)) else None
    decreases s, 2
  {
    var toks := Tokens(s) + rest;
    match s
    case Leaf(field, _, op, lit, quoted) =>
      assert toks[3..] == rest;
    case Paren(conn, items) =>
      JoinedParses(tight, conn, items, [Close] + rest);
      assert toks[1..] == TokensRun(conn, items) + ([Close] + rest);
      assert ([Close] + rest)[1..] == rest;
  }

  lemma {:induction false} ItemParses(tight: Conn, conn: Conn, s: Shape, rest: seq<Token>)
    requires Writable(s)
    requires conn == tight || Ends(rest) || rest[0] == Keyword(conn)
    ensures ParseItem(tight, conn, Tokens(s) + rest) == if Plain(s) then Some((Stands(s), rest)) else None
    decreases s, 3
  {
    AtomParses(tight, s, rest);
    if conn != tight {
      LoneItemParses(tight, Tokens(s) + rest, ParseAtom(tight, Tokens(s) + rest));
    }
  }

  /** An atom not followed by the tighter connective is a whole run of it. */
  lemma LoneItemParses(tight: Conn, toks: seq<Token>, atom: Option<(Expr, seq<Token>)>)
    requires ParseAtom(tight, toks) == atom
    requires atom.Some? ==> atom.value.1 == [] || atom.value.1[0] != Keyword(tight)
    ensures ParseJoined(tight, tight, toks) == atom
  {
    assert ParseItem(tight, tight, toks) == atom;
    if atom.Some? {
      assert ParseRun(tight, tight, toks) == Some(([atom.value.0], atom.value.1));
    }
  }

  /** A run after whose first item the connective follows. */
  lemma RunStep(tight: Conn, conn: Conn, toks: seq<Token>, e: Expr, tail: seq<Token>)
    requires ParseItem(tight, conn, toks) == Some((e, [Keyword(conn)] + tail))
    ensures ParseRun(tight, conn, toks) ==
              var more := ParseRun(tight, conn, tail);
              if more.None? then None else Some(([e] + more.value.0, more.value.1))
  {
    assert ([Keyword(conn)] + tail)[1..] == tail;
  }

  lemma AllPlainCons(items: seq<Shape>)
    requires items != []
    ensures AllPlain(items) <==> Plain(items[0]) && AllPlain(items[1..])
  {
    assert forall i :: 1 <= i < |items| ==> items[i] == items[1..][i - 1];
  }

  lemma TokensRunSplits(conn: Conn, items: seq<Shape>, rest: seq<Token>)
    requires |items| > 1
    ensures TokensRun(conn, items) + rest == Tokens(items[0]) + ([Keyword(conn)] + (TokensRun(conn, items[1..]) + rest))
    ensures StandsAll(items) == [Stands(items[0])] + StandsAll(items[1..])
  {
  }

  lemma {:induction false} RunParses(tight: Conn, conn: Conn, items: seq<Shape>, rest: seq<Token>)
    requires items != [] && AllWritable(items) && Ends(rest)
    ensures ParseRun(tight, conn, TokensRun(conn, items) + rest)
            == if AllPlain(items) then Some((StandsAll(items), rest)) else None
    decreases items, 0
  {
    AllPlainCons(items);
    if |items| == 1 {
      ItemParses(tight, conn, items[0], rest);
      assert StandsAll(items) == [Stands(items[0])];
    } else {
      var tail := TokensRun(conn, items[1..]) + rest;
      TokensRunSplits(conn, items, rest);
      ItemParses(tight, conn, items[0], [Keyword(conn)] + tail);
      RunParses(tight, conn, items[1..], rest);
      if Plain(items[0]) {
        RunStep(tight, conn, TokensRun(conn, items) + rest, Stands(items[0]), tail);
      }
    }
  }

  lemma {:induction false} JoinedParses(tight: Conn, conn: Conn, items: seq<Shape>, rest: seq<Token>)
    requires items != [] && AllWritable(items) && Ends(rest)
    ensures ParseJoined(tight, Other(tight), TokensRun(conn, items) + rest)
            == if AllPlain(items) then Some((Collapse(conn, StandsAll(items)), rest)) else None
    decreases items, 1
  {
    RunParses(tight, conn, items, rest);
    if conn == tight {
      LooseRunParses(tight, TokensRun(conn, items) + rest, ParseJoined(tight, conn, TokensRun(conn, items) + rest));
    }
  }

  /** A tighter run not followed by the looser connective is a whole looser run. */
  lemma LooseRunParses(tight: Conn, toks: seq<Token>, run: Option<(Expr, seq<Token>)>)
    requires ParseJoined(tight, tight, toks) == run
    requires run.Some? ==> run.value.1 == [] || run.value.1[0] != Keyword(Other(tight))
    ensures ParseJoined(tight, Other(tight), toks) == run
  {
    assert ParseItem(tight, Other(tight), toks) == run;
    if run.Some? {
      assert ParseRun(tight, Other(tight), toks) == Some(([run.value.0], run.value.1));
    }
  }

  // ---------- Reading characters back ----------

  lemma BeforeTwice(a: seq<Token>, b: seq<Token>, rest: Option<seq<Token>>)
    ensures Before(a, Before(b, rest)) == Before(a + b, rest)
  {
    if rest.Some? {
      assert a + (b + rest.value) == a + b + rest.value;
    }
  }

  lemma {:induction false} WordLenOf(w: string, rest: string)
    requires forall c :: c in w ==> IsWordChar(c)
    requires rest == "" || !IsWordChar(rest[0])
    ensures WordLen(w + rest) == |w|
  {
    if w == "" {
      assert w + rest == rest;
    } else {
      assert (w + rest)[1..] == w[1..] + rest;
      WordLenOf(w[1..], rest);
    }
  }

  lemma {:induction false} QuoteLenOf(q: string, rest: string)
    requires '"' !in q && rest != "" && rest[0] == '"'
    ensures QuoteLen(q + rest) == |q|
  {
    if q == "" {
      assert q + rest == rest;
    } else {
      assert (q + rest)[1..] == q[1..] + rest;
      QuoteLenOf(q[1..], rest);
    }
  }

  lemma WordReadsAsToken(w: string, rest: string)
    requires IsWord(w) && (rest == "" || !IsWordChar(rest[0]))
    ensures Tokenize(w + rest) == Before([WordToken(w)], Tokenize(rest))
  {
    WordLenOf(w, rest);
    assert (w + rest)[0] == w[0] && w[0] in w;
    assert (w + rest)[..|w|] == w && (w + rest)[|w|..] == rest;
  }

  lemma QuotedToken(q: string, rest: string)
    requires '"' !in q
    ensures Tokenize("\"" + q + "\"" + rest) == Before([Quoted(q)], Tokenize(rest))
  {
    var s := "\"" + q + "\"" + rest;
    assert s[1..] == q + ("\"" + rest);
    QuoteLenOf(q, "\"" + rest);
    assert s[1..|q| + 1] == q && s[|q| + 2..] == rest;
  }

  lemma SignToken(op: Op, rest: string)
    ensures Tokenize(SignText(op) + rest) == Before([Sign(op)], Tokenize(rest))
  {
    var s := SignText(op) + rest;
    assert s[2..] == rest && s[1] == '=' && SignOf(s[0]) == Some(op);
  }

  lemma {:induction false} SpaceTokens(pad: string, rest: string)
    requires forall c :: c in pad ==> IsSpace(c)
    ensures Tokenize(pad + rest) == Tokenize(rest)
  {
    if pad == "" {
      assert pad + rest == rest;
    } else {
      assert (pad + rest)[1..] == pad[1..] + rest;
      SpaceTokens(pad[1..], rest);
    }
  }

  /** What may follow a printed shape: nothing, a closing parenthesis, a separator. */
  predicate Follows(rest: string) {
    rest == "" || rest[0] == ')' || rest[0] == ' '
  }

  lemma LiteralToken(lit: string, quoted: bool, rest: string)
    requires (if quoted then '"' !in lit else IsWord(lit) && !Reserved(lit)) && Follows(rest)
    ensures Tokenize((if quoted then "\"" + lit + "\"" else lit) + rest)
            == Before([if quoted then Quoted(lit) else Word(lit)], Tokenize(rest))
  {
    if quoted {
      QuotedToken(lit, rest);
    } else {
      WordReadsAsToken(lit, rest);
    }
  }

  lemma PaddedSign(pad: string, op: Op, rest: string)
    requires forall c :: c in pad ==> IsSpace(c)
    ensures var tail := pad + (SignText(op) + rest);
            tail != "" && !IsWordChar(tail[0]) && Tokenize(tail) == Before([Sign(op)], Tokenize(rest))
  {
    SignToken(op, rest);
    SpaceTokens(pad, SignText(op) + rest);
    assert pad != "" ==> (pad + (SignText(op) + rest))[0] == pad[0];
  }

  lemma LeafText(s: Shape, rest: string)
    requires s.Leaf?
    ensures Print(s) + rest
            == s.field + (s.pad + (SignText(s.op) + ((if s.quoted then "\"" + s.lit + "\"" else s.lit) + rest)))
  {
  }

  lemma Chain(whole: Option<seq<Token>>, a: seq<Token>, mid: Option<seq<Token>>, b: seq<Token>, rest: Option<seq<Token>>)
    requires whole == Before(a, mid) && mid == Before(b, rest)
    ensures whole == Before(a + b, rest)
  {
    BeforeTwice(a, b, rest);
  }

  lemma LeafTokens(s: Shape, rest: string)
    requires s.Leaf? && Writable(s) && Follows(rest)
    ensures Tokenize(Print(s) + rest) == Before(Tokens(s), Tokenize(rest))
  {
    var last := if s.quoted then Quoted(s.lit) else Word(s.lit);
    var tail2 := (if s.quoted then "\"" + s.lit + "\"" else s.lit) + rest;
    var tail1 := s.pad + (SignText(s.op) + tail2);
    LeafText(s, rest);
    LiteralToken(s.lit, s.quoted, rest);
    PaddedSign(s.pad, s.op, tail2);
    Chain(Tokenize(tail1), [Sign(s.op)], Tokenize(tail2), [last], Tokenize(rest));
    WordReadsAsToken(s.field, tail1);
    Chain(Tokenize(s.field + tail1), [WordToken(s.field)], Tokenize(tail1), [Sign(s.op)] + [last], Tokenize(rest));
    assert Tokens(s) == [WordToken(s.field)] + ([Sign(s.op)] + [last]);
    assert Tokenize(Print(s) + rest) == Tokenize(s.field + tail1);
  }

  lemma SpacedWord(w: string, rest: string)
    requires IsWord(w)
    ensures Tokenize(" " + (w + (" " + rest))) == Before([WordToken(w)], Tokenize(rest))
  {
    WordReadsAsToken(w, " " + rest);
    SpaceTokens(" ", rest);
    SpaceTokens(" ", w + (" " + rest));
  }

  lemma SeparatorToken(conn: Conn, rest: string)
    ensures Tokenize(Separator(conn) + rest) == Before([Keyword(conn)], Tokenize(rest))
  {
    if conn == And {
      SpacedWord("and", rest);
      assert Separator(And) + rest == " " + ("and" + (" " + rest));
    } else {
      SpacedWord("or", rest);
      assert Separator(Or) + rest == " " + ("or" + (" " + rest));
    }
  }

  lemma BracketTokens(inside: string, rest: string, toks: seq<Token>)
    requires Tokenize(inside + (")" + rest)) == Before(toks, Tokenize(")" + rest))
    ensures Tokenize("(" + inside + ")" + rest) == Before([Open] + toks + [Close], Tokenize(rest))
  {
    var text := "(" + inside + ")" + rest;
    assert text[1..] == inside + (")" + rest);
    assert (")" + rest)[1..] == rest;
    Chain(Tokenize(text), [Open], Tokenize(inside + (")" + rest)), toks, Tokenize(")" + rest));
    Chain(Tokenize(text), [Open] + toks, Tokenize(")" + rest), [Close], Tokenize(rest));
  }

  lemma JoinedText(head: string, sep: string, tail: string, rest: string)
    ensures (head + sep + tail) + rest == head + (sep + (tail + rest))
  {
  }

  lemma {:induction false} ShapeTokens(s: Shape, rest: string)
    requires Writable(s) && Follows(rest)
    ensures Tokenize(Print(s) + rest) == Before(Tokens(s), Tokenize(rest))
    decreases s, 1
  {
    if s.Leaf? {
      LeafTokens(s, rest);
    } else {
      RunTokens(s.conn, s.items, ")" + rest);
      BracketTokens(PrintRun(s.conn, s.items), rest, TokensRun(s.conn, s.items));
    }
  }

  lemma {:induction false} RunTokens(conn: Conn, items: seq<Shape>, rest: string)
    requires items != [] && AllWritable(items) && Follows(rest)
    ensures Tokenize(PrintRun(conn, items) + rest) == Before(TokensRun(conn, items), Tokenize(rest))
    decreases items, 0
  {
    if |items| == 1 {
      ShapeTokens(items[0], rest);
    } else {
      var tail := PrintRun(conn, items[1..]) + rest;
      var more := TokensRun(conn, items[1..]);
      RunTokens(conn, items[1..], rest);
      SeparatorToken(conn, tail);
      ShapeTokens(items[0], Separator(conn) + tail);
      JoinedText(Print(items[0]), Separator(conn), PrintRun(conn, items[1..]), rest);
      Chain(Tokenize(Print(items[0]) + (Separator(conn) + tail)), Tokens(items[0]),
            Tokenize(Separator(conn) + tail), [Keyword(conn)], Tokenize(tail));
      Chain(Tokenize(Print(items[0]) + (Separator(conn) + tail)), Tokens(items[0]) + [Keyword(conn)],
            Tokenize(tail), more, Tokenize(rest));
    }
  }

  /** What is printed parses back, to the same expression under either precedence, if
      and only if no comparison in it has a reserved word for its field. */
  lemma PrintedRunParsesBack(tight: Conn, conn: Conn, items: seq<Shape>)
    requires items != [] && AllWritable(items)
    ensures ParseFilter(tight, PrintRun(conn, items)) ==
              if AllPlain(items) then Some(Collapse(conn, StandsAll(items))) else None
  {
    RunTokens(conn, items, "");
    assert PrintRun(conn, items) + "" == PrintRun(conn, items);
    var toks := TokensRun(conn, items);
    assert toks + [] == toks;
    JoinedParses(tight, conn, items, []);
  }
}
