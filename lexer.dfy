/** The tokenizer: `tokenize` and `readToken` (calc.js, lines 69-110). */
module Lexer {
  import opened Base
  import opened Tokens
  import opened Scanners

  /** Space, tab and newline are skipped. */
  predicate IsSpace(c: char) { c == ' ' || c == '\t' || c == '\n' }

  predicate IsPrefix(p: string, h: string) { |p| <= |h| && h[..|p|] == p }

  /** Index of the first literal token, at or after `from` in `table`, whose text starts `h`. */
  function FirstLiteral(h: string, table: seq<Token>, from: nat): (r: Option<nat>)
    requires from <= |table|
    ensures r.Some? ==> from <= r.value < |table| && IsPrefix(table[r.value].Text(), h)
    ensures forall k :: from <= k < (if r.Some? then r.value else |table|) ==> !IsPrefix(table[k].Text(), h)
    decreases |table| - from
  {
    if from == |table| then None
    else if IsPrefix(table[from].Text(), h) then Some(from)
    else FirstLiteral(h, table, from + 1)
  }

  /** What one step of the tokenizer does with the text from the current position on. */
  datatype Lexed = Skip | Emit(token: Token, length: nat) | NoMatch

  /**
   * One step at the start of `h`: whitespace is skipped; otherwise the literal tokens are
   * tried in table order, then NUMBER, REFERENCE and UNIT in that order.
   */
  function ReadHead(h: string): (r: Lexed)
    requires |h| > 0
    ensures r.Skip? <==> IsSpace(h[0])
    ensures r.Emit? ==> 0 < r.length <= |h| && r.token.Text() == h[..r.length]
  {
    if IsSpace(h[0]) then Skip
    else
      match FirstLiteral(h, SimpleTokens, 0)
      case Some(k) =>
        assert SimpleTokens[k].IsLiteral();
        Emit(SimpleTokens[k], |SimpleTokens[k].Text()|)
      case None =>
        var n := NumberMatch(h);
        if n > 0 then Emit(Number(h[..n]), n)
        else
          var r := ReferenceMatch(h);
          if r > 0 then Emit(Reference(h[..r]), r)
          else
            var u := UnitMatch(h);
            if u > 0 then Emit(Unit(h[..u]), u) else NoMatch
  }

  /**
   * `readToken(tokens, str, i)`: the token to push (if any) and the next position, or the
   * error naming the offending offset and character.
   */
  function ReadToken(str: string, i: nat): (r: Result<(Option<Token>, nat)>)
    requires i < |str|
    ensures r.Ok? ==> i < r.value.1 <= |str|
    ensures r.Ok? && r.value.0.None? ==> IsSpace(str[i]) && r.value.1 == i + 1
    ensures r.Ok? && r.value.0.Some? ==> r.value.0.value.Text() == str[i..r.value.1]
    ensures r.Err? <==> ReadHead(str[i..]).NoMatch?
    ensures r.Err? ==> r.error == CouldNotTokenize(i, str[i])
  {
    match ReadHead(str[i..])
    case Skip => Ok((None, i + 1))
    case Emit(t, n) => Ok((Some(t), i + n))
    case NoMatch => Err(CouldNotTokenize(i, str[i]))
  }

  /** The tokens of `str[i..]`: what the `tokenize` loop collects from position `i` on. */
  function TokenizeFrom(str: string, i: nat): (r: Result<seq<Token>>)
    requires i <= |str|
    ensures r.Ok? ==> |r.value| <= |str| - i
    ensures r.Err? ==> r.error.CouldNotTokenize? && i <= r.error.pos < |str|
                       && r.error.ch == str[r.error.pos] && ReadHead(str[r.error.pos..]).NoMatch?
    decreases |str| - i
  {
    if i == |str| then Ok([])
    else
      match ReadToken(str, i)
      case Err(e) => Err(e)
      case Ok((None, j)) => TokenizeFrom(str, j)
      case Ok((Some(t), j)) => Prepend([t], TokenizeFrom(str, j))
  }

  /** `tokenize(str)`: the index-advancing loop that pushes each token it reads. */
  method Tokenize(str: string) returns (r: Result<seq<Token>>)
    ensures r == TokenizeFrom(str, 0)
  {
    var tokens: seq<Token> := [];
    var i := 0;
    while i < |str|
      invariant i <= |str|
      invariant TokenizeFrom(str, 0) == Prepend(tokens, TokenizeFrom(str, i))
      decreases |str| - i
    {
      var step := ReadToken(str, i);
      if step.Err? {
        return Err(step.error);
      }
      var (t, next) := step.value;
      if t.Some? {
        assert TokenizeFrom(str, i) == Prepend([t.value], TokenizeFrom(str, next));
        PrependTwice(tokens, [t.value], TokenizeFrom(str, next));
        tokens := tokens + [t.value];
      }
      i := next;
    }
    assert tokens + [] == tokens;
    return Ok(tokens);
  }

  lemma PrependTwice<T>(xs: seq<T>, ys: seq<T>, r: Result<seq<T>>)
    ensures Prepend(xs, Prepend(ys, r)) == Prepend(xs + ys, r)
  {
    if r.Ok? {
      assert xs + (ys + r.value) == (xs + ys) + r.value;
    }
  }

  /**
   * A token the tokenizer can produce: a literal, or a complete match of its own pattern
   * that is not pre-empted by a literal (no NUMBER starts with `-`, no UNIT with `x` or `in`).
   */
  predicate WellFormed(t: Token)
  {
    match t
    case Number(s) => |s| > 0 && NumberMatch(s) == |s| && s[0] != '-'
    case Reference(s) => |s| > 0 && ReferenceMatch(s) == |s|
    case Unit(s) => |s| > 0 && UnitMatch(s) == |s| && s[0] != 'x' && !IsPrefix("in", s)
    case _ => true
  }

  predicate AllWellFormed(ts: seq<Token>)
  {
    forall k :: 0 <= k < |ts| ==> WellFormed(ts[k])
  }

  /** The one-character literals: `/`, `x`, `,`, `+`, `-`, `(`, `)`. */
  predicate IsLiteralChar(c: char)
  {
    c == '/' || c == 'x' || c == ',' || c == '+' || c == '-' || c == '(' || c == ')'
  }

  /** Some literal token's text starts `h`. */
  predicate StartsLiteral(h: string)
    requires |h| > 0
  {
    IsLiteralChar(h[0]) || IsPrefix("in", h)
  }

  /** The literal table spelled out. */
  lemma TableTexts()
    ensures |SimpleTokens| == 8
    ensures SimpleTokens[0].Text() == "/" && SimpleTokens[1].Text() == "x"
    ensures SimpleTokens[2].Text() == "," && SimpleTokens[3].Text() == "+"
    ensures SimpleTokens[4].Text() == "-" && SimpleTokens[5].Text() == "("
    ensures SimpleTokens[6].Text() == ")" && SimpleTokens[7].Text() == "in"
  {
  }

  lemma PrefixOne(c: char, h: string)
    requires |h| > 0
    ensures IsPrefix([c], h) <==> h[0] == c
  {
    if h[0] == c {
      assert h[..1] == [c];
    }
  }

  /** Whether the `k`-th literal starts `h`, in terms of characters. */
  lemma LiteralAt(h: string, k: nat)
    requires |h| > 0 && k < |SimpleTokens|
    ensures k < 7 ==> (IsPrefix(SimpleTokens[k].Text(), h) <==> h[0] == "/x,+-()"[k])
    ensures k == 7 ==> (IsPrefix(SimpleTokens[k].Text(), h) <==> IsPrefix("in", h))
  {
    TableTexts();
    if k < 7 {
      assert SimpleTokens[k].Text() == ["/x,+-()"[k]];
      PrefixOne("/x,+-()"[k], h);
    }
  }

  lemma FirstLiteralIff(h: string)
    requires |h| > 0
    ensures FirstLiteral(h, SimpleTokens, 0).Some? <==> StartsLiteral(h)
  {
    var r := FirstLiteral(h, SimpleTokens, 0);
    TableTexts();
    if r.Some? {
      LiteralAt(h, r.value);
    }
    if StartsLiteral(h) {
      if IsPrefix("in", h) {
        LiteralAt(h, 7);
      } else {
        var c := h[0];
        var k := if c == '/' then 0 else if c == 'x' then 1 else if c == ',' then 2
          else if c == '+' then 3 else if c == '-' then 4 else if c == '(' then 5 else 6;
        LiteralAt(h, k);
      }
    }
  }

  /** When the `k`-th literal is the first that starts `h`, it is the token read. */
  lemma LiteralWins(h: string, k: nat)
    requires |h| > 0 && k < |SimpleTokens|
    requires IsPrefix(SimpleTokens[k].Text(), h)
    requires forall j :: 0 <= j < k ==> !IsPrefix(SimpleTokens[j].Text(), h)
    ensures ReadHead(h) == Emit(SimpleTokens[k], |SimpleTokens[k].Text()|)
  {
    assert SimpleTokens[k].Text()[0] == h[0];
    assert !IsSpace(h[0]);
    var r := FirstLiteral(h, SimpleTokens, 0);
    assert r.Some?;
    assert r.value == k;
  }

  /** A leading `-` is always the subtraction operator, even where a NUMBER would match. */
  lemma MinusIsSubtract(h: string)
    requires |h| > 0 && h[0] == '-'
    ensures ReadHead(h) == Emit(SubtractOp, 1)
  {
    forall j | 0 <= j < 4 ensures !IsPrefix(SimpleTokens[j].Text(), h) {
      assert SimpleTokens[j].Text()[0] != '-';
    }
    LiteralWins(h, 4);
  }

  /** `x` is always the multiplication operator, even where a UNIT would match. */
  lemma TimesPreemptsUnit(h: string)
    requires |h| > 0 && h[0] == 'x'
    ensures ReadHead(h) == Emit(MultiplyOp, 1)
  {
    assert !IsPrefix(SimpleTokens[0].Text(), h);
    LiteralWins(h, 1);
  }

  /** Where a token starts with `in`, the units keyword is read, ahead of the UNIT pattern. */
  lemma InPreemptsUnit(h: string)
    requires IsPrefix("in", h)
    ensures ReadHead(h) == Emit(UnitsKw, 2)
  {
    forall j | 0 <= j < 7 ensures !IsPrefix(SimpleTokens[j].Text(), h) {
      assert SimpleTokens[j].Text()[0] != 'i';
    }
    LiteralWins(h, 7);
  }

  /**
   * Exactly the characters no rule matches make the tokenizer fail: not whitespace, not one
   * of the literal characters, not a digit or lower-case letter, and not `$` before a word
   * character.
   */
  lemma NoMatchIff(h: string)
    requires |h| > 0
    ensures ReadHead(h).NoMatch? <==>
      !IsSpace(h[0]) && !IsLiteralChar(h[0]) && !IsDigit(h[0]) && !IsLower(h[0])
      && !(h[0] == '$' && |h| >= 2 && IsWordChar(h[1]))
  {
    FirstLiteralIff(h);
    if IsDigit(h[0]) {
      if h[0] == '0' {
        assert IntPartEnd(h, 0) == 1;
      } else {
        assert IntPartEnd(h, 0) > 0;
      }
    }
  }

  /** Every token a step emits is well formed. */
  lemma ReadHeadWellFormed(h: string)
    requires |h| > 0 && ReadHead(h).Emit?
    ensures WellFormed(ReadHead(h).token)
  {
    var r := ReadHead(h);
    FirstLiteralIff(h);
    if !r.token.IsLiteral() {
      var n := r.length;
      var s := h[..n];
      assert Agree(h, s, n);
      if r.token.Number? {
        NumberStable(h, s);
      } else if r.token.Reference? {
        assert NumberMatch(h) == 0;
        ReferenceStable(h, s);
      } else {
        UnitStable(h, s);
        assert !IsPrefix("in", h);
        if n >= 2 {
          assert s[..2] == h[..2];
        }
      }
    }
  }

  /** A literal token written out is read back, whatever follows it. */
  lemma ReadHeadOfLiteral(t: Token, rest: string)
    requires t.IsLiteral()
    ensures |t.Text()| > 0
    ensures ReadHead(t.Text() + rest) == Emit(t, |t.Text()|)
  {
    TableTexts();
    var h := t.Text() + rest;
    var k: nat :=
      match t
      case DivideOp => 0
      case MultiplyOp => 1
      case Comma => 2
      case AddOp => 3
      case SubtractOp => 4
      case OpenParen => 5
      case CloseParen => 6
      case UnitsKw => 7;
    assert SimpleTokens[k] == t;
    assert h[..|t.Text()|] == t.Text();
    forall j | 0 <= j < k ensures !IsPrefix(SimpleTokens[j].Text(), h) {
      LiteralAt(h, j);
    }
    LiteralWins(h, k);
  }

  /** No literal starts a well-formed pattern token's text followed by a boundary. */
  lemma NoLiteralBeforeMatch(t: Token, rest: string)
    requires WellFormed(t) && !t.IsLiteral()
    requires rest == [] || IsBoundary(rest[0])
    ensures FirstLiteral(t.Text() + rest, SimpleTokens, 0).None?
  {
    var s := t.Text();
    var h := s + rest;
    assert h[0] == s[0];
    assert !IsLiteralChar(h[0]) by {
      if t.Number? {
        assert IsDigit(s[0]);
      }
    }
    assert !IsPrefix("in", h) by {
      if t.Unit? && |h| >= 2 && h[0] == 'i' {
        if |s| >= 2 {
          assert h[1] == s[1];
          assert s[..2] != "in";
          assert s[..2] == [s[0], s[1]];
        } else {
          assert h[1] == rest[0];
        }
        assert h[..2] == [h[0], h[1]];
      }
    }
    FirstLiteralIff(h);
  }

  /** A well-formed pattern token written out, followed by a boundary, is read back. */
  lemma ReadHeadOfMatch(t: Token, rest: string)
    requires WellFormed(t) && !t.IsLiteral()
    requires rest == [] || IsBoundary(rest[0])
    ensures ReadHead(t.Text() + rest) == Emit(t, |t.Text()|)
  {
    var s := t.Text();
    var h := s + rest;
    assert h[..|s|] == s;
    assert Agree(s, h, |s|) && StopsAt(h, |s|);
    NoLiteralBeforeMatch(t, rest);
    if t.Number? {
      NumberStable(s, h);
    } else if t.Reference? {
      ReferenceStable(s, h);
      assert NumberMatch(h) == 0;
    } else {
      UnitStable(s, h);
      assert NumberMatch(h) == 0 && ReferenceMatch(h) == 0;
    }
  }

  /** Writing a well-formed token out, followed by a boundary, reads it back. */
  lemma ReadHeadOfText(t: Token, rest: string)
    requires WellFormed(t)
    requires rest == [] || IsBoundary(rest[0])
    ensures |t.Text()| > 0
    ensures ReadHead(t.Text() + rest) == Emit(t, |t.Text()|)
  {
    if t.IsLiteral() {
      ReadHeadOfLiteral(t, rest);
    } else {
      ReadHeadOfMatch(t, rest);
    }
  }

  /** Every token `tokenize` produces is well formed. */
  lemma {:induction false} TokenizeWellFormed(str: string, i: nat)
    requires i <= |str| && TokenizeFrom(str, i).Ok?
    ensures AllWellFormed(TokenizeFrom(str, i).value)
    decreases |str| - i
  {
    if i < |str| {
      var step := ReadToken(str, i);
      var j := step.value.1;
      TokenizeWellFormed(str, j);
      if step.value.0.Some? {
        ReadHeadWellFormed(str[i..]);
      }
    }
  }

  /** Tokenizing depends only on the text still to be read (error offsets aside). */
  lemma {:induction false} TokenizeSuffix(a: string, i: nat, b: string, j: nat)
    requires i <= |a| && j <= |b| && a[i..] == b[j..]
    ensures TokenizeFrom(a, i).Ok? <==> TokenizeFrom(b, j).Ok?
    ensures TokenizeFrom(a, i).Ok? ==> TokenizeFrom(b, j).value == TokenizeFrom(a, i).value
    decreases |a| - i
  {
    if i < |a| {
      ReadTokenSuffix(a, i, b, j);
      if ReadToken(a, i).Ok? {
        var t := ReadToken(a, i).value.0;
        var ja := ReadToken(a, i).value.1;
        var jb := ReadToken(b, j).value.1;
        SuffixStep(a, i, b, j, ja - i);
        TokenizeSuffix(a, ja, b, jb);
        if t.Some? {
          assert TokenizeFrom(a, i) == Prepend([t.value], TokenizeFrom(a, ja));
          assert TokenizeFrom(b, j) == Prepend([t.value], TokenizeFrom(b, jb));
        } else {
          assert TokenizeFrom(a, i) == TokenizeFrom(a, ja);
          assert TokenizeFrom(b, j) == TokenizeFrom(b, jb);
        }
      }
    }
  }

  lemma ReadTokenSuffix(a: string, i: nat, b: string, j: nat)
    requires i < |a| && j <= |b| && a[i..] == b[j..]
    ensures ReadToken(a, i).Ok? <==> ReadToken(b, j).Ok?
    ensures ReadToken(a, i).Ok? ==>
      (ReadToken(b, j).value.0 == ReadToken(a, i).value.0
       && ReadToken(b, j).value.1 - j == ReadToken(a, i).value.1 - i)
  {
    assert ReadHead(a[i..]) == ReadHead(b[j..]);
  }

  lemma SuffixStep(a: string, i: nat, b: string, j: nat, n: nat)
    requires i + n <= |a| && j + n <= |b| && a[i..] == b[j..]
    ensures a[i + n..] == b[j + n..]
  {
    assert a[i + n..] == a[i..][n..];
    assert b[j + n..] == b[j..][n..];
  }

  /** The source text of a token sequence, one space after each token. */
  function Untokenize(ts: seq<Token>): string
  {
    if ts == [] then "" else ts[0].Text() + " " + Untokenize(ts[1..])
  }

  /** Writing well-formed tokens out, space separated, and tokenizing gives them back. */
  lemma {:induction false} RetokenizeText(ts: seq<Token>)
    requires AllWellFormed(ts)
    ensures TokenizeFrom(Untokenize(ts), 0) == Ok(ts)
  {
    if ts != [] {
      var t := ts[0];
      var rest := Untokenize(ts[1..]);
      var u := Untokenize(ts);
      assert u == t.Text() + (" " + rest);
      ReadHeadOfText(t, " " + rest);
      var n := |t.Text()|;
      assert u[0..] == u;
      assert ReadToken(u, 0) == Ok((Some(t), n));
      assert u[n..] == " " + rest;
      assert ReadToken(u, n) == Ok((None, n + 1));
      assert u[n + 1..] == rest[0..];
      assert AllWellFormed(ts[1..]) by {
        forall k | 0 <= k < |ts[1..]| ensures WellFormed(ts[1..][k]) {
          assert ts[1..][k] == ts[k + 1];
        }
      }
      RetokenizeText(ts[1..]);
      TokenizeSuffix(u, n + 1, rest, 0);
      assert [t] + ts[1..] == ts;
    }
  }

  /** Untokenizing what `tokenize` produced and tokenizing again reproduces the tokens. */
  lemma RetokenizeRoundTrip(str: string)
    requires TokenizeFrom(str, 0).Ok?
    ensures TokenizeFrom(Untokenize(TokenizeFrom(str, 0).value), 0) == TokenizeFrom(str, 0)
  {
    TokenizeWellFormed(str, 0);
    RetokenizeText(TokenizeFrom(str, 0).value);
  }

  /** The text with its spaces, tabs and newlines removed. */
  function NonSpace(s: string): string
    decreases |s|
  {
    if s == [] then [] else (if IsSpace(s[0]) then [] else [s[0]]) + NonSpace(s[1..])
  }

  /** The tokens' texts, joined with nothing between them. */
  function Texts(ts: seq<Token>): string
    decreases |ts|
  {
    if ts == [] then [] else ts[0].Text() + Texts(ts[1..])
  }

  /** A character that can occur in some token: `\w`, a literal character, `$` or `.`. */
  predicate TokenChar(c: char)
  {
    IsWordChar(c) || IsLiteralChar(c) || c == '$' || c == '.'
  }

  predicate AllTokenChars(s: string)
  {
    forall k :: 0 <= k < |s| ==> TokenChar(s[k])
  }

  lemma {:induction false} NonSpaceAppend(a: string, b: string)
    ensures NonSpace(a + b) == NonSpace(a) + NonSpace(b)
    decreases |a|
  {
    if a == [] {
      assert a + b == b;
    } else {
      assert (a + b)[0] == a[0] && (a + b)[1..] == a[1..] + b;
      NonSpaceAppend(a[1..], b);
      var h := if IsSpace(a[0]) then [] else [a[0]];
      assert h + (NonSpace(a[1..]) + NonSpace(b)) == (h + NonSpace(a[1..])) + NonSpace(b);
    }
  }

  /** Text made only of token characters has no whitespace to remove. */
  lemma {:induction false} NonSpaceOfTokenChars(s: string)
    requires AllTokenChars(s)
    ensures NonSpace(s) == s
    decreases |s|
  {
    if s != [] {
      assert AllTokenChars(s[1..]) by {
        forall k | 0 <= k < |s| - 1 ensures TokenChar(s[1..][k]) {
          assert s[1..][k] == s[k + 1];
        }
      }
      NonSpaceOfTokenChars(s[1..]);
    }
  }

  /** Every character that is not whitespace is kept. */
  lemma {:induction false} NonSpaceKeeps(s: string, k: nat)
    requires k < |s| && !IsSpace(s[k])
    ensures s[k] in NonSpace(s)
    decreases k
  {
    if k > 0 {
      assert s[1..][k - 1] == s[k];
      NonSpaceKeeps(s[1..], k - 1);
    }
  }

  /** The characters of a NUMBER lexeme: a sign, digits, `.` and an exponent mark. */
  lemma NumberChars(s: string)
    requires |s| > 0 && NumberMatch(s) == |s|
    ensures AllTokenChars(s)
  {
    NumberMatchIsLongest(s);
    var i: nat, j: nat, k: nat :| NumberSplit(s, |s|, i, j, k);
    forall p | 0 <= p < |s| ensures TokenChar(s[p]) {
      SplitChar(s, i, j, k, p);
    }
  }

  lemma SplitChar(s: string, i: nat, j: nat, k: nat, p: nat)
    requires NumberSplit(s, |s|, i, j, k) && p < |s|
    ensures TokenChar(s[p])
  {
    if p < i {
      assert s[p] == '-';
    } else if p < j {
      assert IsDigit(s[p]);
    } else if p < k {
      assert s[p] == '.' || IsDigit(s[p]);
    } else if p == k {
      assert IsExponentMark(s[p]);
    } else if p == k + 1 {
      assert IsSign(s[p]);
    } else {
      assert IsDigit(s[p]);
    }
  }

  /** A well-formed token's text is made of token characters only. */
  lemma WellFormedChars(t: Token)
    requires WellFormed(t)
    ensures AllTokenChars(t.Text())
  {
    match t
    case Number(s) => NumberChars(s);
    case Reference(s) =>
    case Unit(s) =>
    case _ =>
  }

  lemma {:induction false} AllWellFormedChars(ts: seq<Token>)
    requires AllWellFormed(ts)
    ensures AllTokenChars(Texts(ts))
    decreases |ts|
  {
    if ts != [] {
      WellFormedChars(ts[0]);
      assert AllWellFormed(ts[1..]) by {
        forall k | 0 <= k < |ts| - 1 ensures WellFormed(ts[1..][k]) {
          assert ts[1..][k] == ts[k + 1];
        }
      }
      AllWellFormedChars(ts[1..]);
      var a := ts[0].Text();
      var b := Texts(ts[1..]);
      forall k | 0 <= k < |a + b| ensures TokenChar((a + b)[k]) {
        if k >= |a| {
          assert (a + b)[k] == b[k - |a|];
        }
      }
    }
  }

  /**
   * What `tokenize` produces: the tokens' texts, joined, are the input with its whitespace
   * removed. No character is dropped, none is added and the order is kept.
   */
  lemma {:induction false} TokenizeTexts(str: string, i: nat)
    requires i <= |str| && TokenizeFrom(str, i).Ok?
    ensures Texts(TokenizeFrom(str, i).value) == NonSpace(str[i..])
    decreases |str| - i
  {
    if i == |str| {
      assert str[i..] == [];
    } else {
      var step := ReadToken(str, i);
      var j := step.value.1;
      TokenizeTexts(str, j);
      assert str[i..] == str[i..j] + str[j..];
      NonSpaceAppend(str[i..j], str[j..]);
      if step.value.0.None? {
        assert str[i..j] == [str[i]];
      } else {
        var t := step.value.0.value;
        ReadHeadWellFormed(str[i..]);
        WellFormedChars(t);
        NonSpaceOfTokenChars(t.Text());
        assert TokenizeFrom(str, i).value == [t] + TokenizeFrom(str, j).value;
        assert ([t] + TokenizeFrom(str, j).value)[1..] == TokenizeFrom(str, j).value;
      }
    }
  }

  /**
   * A character that is neither whitespace nor a token character (`%`, say) anywhere in the
   * input makes tokenizing fail.
   */
  lemma ForeignCharFails(str: string, k: nat)
    requires k < |str| && !IsSpace(str[k]) && !TokenChar(str[k])
    ensures TokenizeFrom(str, 0).Err?
  {
    TokenizedChars(str);
    NonSpaceKeeps(str, k);
  }

  /** Whatever tokenizes is whitespace and token characters only. */
  lemma TokenizedChars(str: string)
    ensures TokenizeFrom(str, 0).Ok? ==> AllTokenChars(NonSpace(str))
  {
    if TokenizeFrom(str, 0).Ok? {
      TokenizeTexts(str, 0);
      assert str[0..] == str;
      TokenizeWellFormed(str, 0);
      AllWellFormedChars(TokenizeFrom(str, 0).value);
    }
  }

  /** `inch` is the units keyword followed by the unit `ch`. */
  lemma InchExample()
    ensures TokenizeFrom("inch", 0) == Ok([UnitsKw, Unit("ch")])
  {
    var s := "inch";
    InPreemptsUnit(s);
    assert s[0..] == s;
    assert ReadToken(s, 0) == Ok((Some(UnitsKw), 2));
    var h := s[2..];
    assert h == "ch";
    FirstLiteralIff(h);
    assert UnitMatch(h) == 2;
    assert h[..2] == "ch";
    assert ReadToken(s, 2) == Ok((Some(Unit("ch")), 4));
    assert TokenizeFrom(s, 2) == Prepend([Unit("ch")], TokenizeFrom(s, 4));
    assert TokenizeFrom(s, 4) == Ok([]);
    assert [Unit("ch")] + [] == [Unit("ch")];
    assert TokenizeFrom(s, 2) == Ok([Unit("ch")]);
    assert TokenizeFrom(s, 0) == Prepend([UnitsKw], TokenizeFrom(s, 2));
    assert [UnitsKw] + [Unit("ch")] == [UnitsKw, Unit("ch")];
  }
  /** `-5` is a subtraction operator and the number `5`, not the number `-5`. */
  lemma MinusExample()
    ensures TokenizeFrom("-5", 0) == Ok([SubtractOp, Number("5")])
  {
    var s := "-5";
    MinusIsSubtract(s);
    assert s[0..] == s;
    assert ReadToken(s, 0) == Ok((Some(SubtractOp), 1));
    var h := s[1..];
    assert h == "5";
    FirstLiteralIff(h);
    assert NumberMatch(h) == 1;
    assert h[..1] == "5";
    assert ReadToken(s, 1) == Ok((Some(Number("5")), 2));
    assert TokenizeFrom(s, 1) == Prepend([Number("5")], TokenizeFrom(s, 2));
    assert TokenizeFrom(s, 2) == Ok([]);
    assert [Number("5")] + [] == [Number("5")];
    assert TokenizeFrom(s, 1) == Ok([Number("5")]);
    assert TokenizeFrom(s, 0) == Prepend([SubtractOp], TokenizeFrom(s, 1));
    assert [SubtractOp] + [Number("5")] == [SubtractOp, Number("5")];
  }

  /** `%`, the divide operator of the header comment and of the examples, does not lex. */
  lemma PercentExample()
    ensures TokenizeFrom("5 % 2", 0) == Err(CouldNotTokenize(2, '%'))
  {
    PercentTokens();
  }

  lemma PercentTokens()
    ensures ReadToken("5 % 2", 0) == Ok((Some(Number("5")), 1))
    ensures ReadToken("5 % 2", 1) == Ok((None, 2))
    ensures ReadToken("5 % 2", 2) == Err(CouldNotTokenize(2, '%'))
  {
    var s := "5 % 2";
    PercentNumber(s);
    assert s[2..] == "% 2";
    PercentSign(s[2..]);
  }

  lemma PercentNumber(s: string)
    requires s == "5 % 2"
    ensures ReadHead(s) == Emit(Number("5"), 1)
  {
    FirstLiteralIff(s);
    assert NumberMatch(s) == 1;
    assert s[..1] == "5";
  }

  lemma PercentSign(h: string)
    requires h == "% 2"
    ensures ReadHead(h).NoMatch?
  {
    NoMatchIff(h);
  }

}
