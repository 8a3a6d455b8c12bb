/** The lexer object of `src/compiler/lexer/mod.rs`, whose position moves over the input. */
module Scanning {
  import opened Ast
  import opened Lexing
  import opened Wrappers

  class Lexer {
    const input: string
    const u: Unicode
    var pos: nat
    var line: nat

    ghost predicate Valid()
      reads this
    {
      pos <= |input|
    }

    /** The text ahead. */
    ghost function Rest(): string
      reads this
      requires Valid()
    {
      input[pos..]
    }

    constructor (input: string, u: Unicode)
      ensures Valid() && Rest() == input && this.u == u
    {
      this.input, this.u := input, u;
      pos, line := 0, 1;
    }

    /** `skip_whitespace` */
    method SkipWhitespace()
      requires Valid()
      modifies this
      ensures Valid() && Next(Rest(), u) == Next(old(Rest()), u) && pos >= old(pos)
      ensures pos < |input| ==> !IsSpace(input[pos])
    {
      hide Next;
      while pos < |input| && IsSpace(input[pos])
        invariant old(pos) <= pos <= |input| && Next(Rest(), u) == Next(old(Rest()), u)
      {
        NextSkips(Rest(), u);
        assert Rest()[1..] == input[pos + 1..];
        if input[pos] == '\n' { line := line + 1; }
        pos := pos + 1;
      }
    }

    /** `next_token`; a lexical error is the token `Bad`. */
    method NextToken() returns (t: Token)
      requires Valid()
      modifies this
      ensures Valid() && t == Next(old(Rest()), u).0
      ensures t != Bad ==> Rest() == Next(old(Rest()), u).1
      decreases |input| - pos
    {
      SkipWhitespace();
      if pos >= |input| { return EOF; }
      ghost var s := Rest();
      var ch := input[pos];
      pos := pos + 1;
      assert Rest() == s[1..];
      var p := Punctuation(ch);
      if p.Some? { return p.value; }
      match ch {
        case '@' => t := LexArityToken();
        case '/' => t := LexSlash();
        case '^' => t := LexTrapOrDeBruijn();
        case '"' => t := LexString();
        case _ =>
          if IsDigit(ch) {
            t := LexNumber(ch);
          } else if IsLetter(ch) || ch == '_' {
            t := LexIdentifier(ch);
          } else {
            t := Bad;
          }
      }
    }

    method TakeDigits() returns (digits: string)
      requires Valid()
      modifies this`pos
      ensures Valid() && AllDigits(digits) && pos >= old(pos)
      ensures var s := old(Rest()); digits == s[..DigitRun(s)] && Rest() == s[DigitRun(s)..]
    {
      ghost var s := Rest();
      digits := "";
      while pos < |input| && IsDigit(input[pos])
        invariant old(pos) <= pos <= |input| && digits == input[old(pos)..pos] && AllDigits(digits)
        invariant DigitRun(s) == pos - old(pos) + DigitRun(Rest())
      {
        assert Rest()[1..] == input[pos + 1..];
        digits := digits + [input[pos]];
        pos := pos + 1;
      }
    }

    /** `lex_arity_token`, behind an `@`. */
    method LexArityToken() returns (t: Token)
      requires Valid()
      modifies this`pos
      ensures Valid() && var s := old(Rest()); var n := DigitRun(s);
        t == Token.Apply(if n == 0 then 1 else UsizeOr(s[..n], 1)) && Rest() == s[n..]
    {
      var digits := TakeDigits();
      return Token.Apply(if digits == "" then 1 else UsizeOr(digits, 1));
    }

    /** `lex_trap_or_debruijn` */
    method LexTrapOrDeBruijn() returns (t: Token)
      requires Valid()
      modifies this`pos
      ensures Valid() && var s := old(Rest()); var n := DigitRun(s);
        t == (if n == 0 then Token.Trap else Token.DeBruijn(UsizeOr(s[..n], 0))) && Rest() == s[n..]
    {
      if pos < |input| && IsDigit(input[pos]) {
        var digits := TakeDigits();
        return Token.DeBruijn(UsizeOr(digits, 0));
      }
      return Token.Trap;
    }

    /** `lex_slash`: a comment, and the token behind it, or the operator. */
    method LexSlash() returns (t: Token)
      requires Valid()
      modifies this
      ensures Valid()
      ensures var s := old(Rest());
        var r := if s != "" && s[0] == '/' then Next(AfterLine(s), u) else (Op(Div), s);
        t == r.0 && (t != Bad ==> Rest() == r.1)
      decreases |input| - pos
    {
      ghost var s := Rest();
      if pos < |input| && input[pos] == '/' {
        while pos < |input| && input[pos] != '\n'
          invariant old(pos) <= pos <= |input| && AfterLine(Rest()) == AfterLine(s)
          invariant pos == old(pos) ==> pos < |input| && input[pos] != '\n'
        {
          assert Rest()[1..] == input[pos + 1..];
          pos := pos + 1;
        }
        if pos < |input| && input[pos] == '\n' {
          assert Rest()[1..] == input[pos + 1..];
          pos := pos + 1;
          line := line + 1;
        }
        t := NextToken();
      } else {
        t := Op(Div);
      }
    }

    /** `lex_string`, behind the opening quote. */
    method LexString() returns (t: Token)
      requires Valid()
      modifies this`pos
      ensures Valid() && var (text, rest) := Lexing.LexString(old(Rest())); t == Token.Text(text) && Rest() == rest
    {
      ghost var whole := Lexing.LexString(Rest());
      var s := "";
      assert "" + whole.0 == whole.0;
      while pos < |input| && input[pos] != '"'
        invariant old(pos) <= pos <= |input|
        invariant whole == Behind(s, Lexing.LexString(Rest()))
        decreases |input| - pos
      {
        if input[pos] == '\\' {
          if pos + 1 < |input| {
            assert Rest()[2..] == input[pos + 2..];
            BehindOne(s, Unescaped(input[pos + 1]), Lexing.LexString(input[pos + 2..]));
            s := s + [Unescaped(input[pos + 1])];
            pos := pos + 2;
          } else {
            pos := pos + 1;
            assert Rest() == "";
          }
        } else {
          assert Rest()[1..] == input[pos + 1..];
          BehindOne(s, input[pos], Lexing.LexString(input[pos + 1..]));
          s := s + [input[pos]];
          pos := pos + 1;
        }
      }
      assert s + "" == s;
      if pos < |input| {
        assert Rest()[1..] == input[pos + 1..];
        pos := pos + 1;
      }
      return Token.Text(s);
    }

    /** `lex_number`; `first` has been read. */
    method LexNumber(first: char) returns (t: Token)
      requires Valid() && pos > 0 && input[pos - 1] == first && IsDigit(first)
      modifies this`pos
      ensures Valid() && var s := old(input[pos - 1..]); var n := NumberRun(s); n > 0 && t == Lexing.LexNumber(s[..n]) && Rest() == s[n..]
    {
      ghost var start, s := pos - 1, input[pos - 1..];
      var text := [first];
      while pos < |input| && IsNumberChar(input[pos])
        invariant start < pos <= |input| && text == input[start..pos]
        invariant forall k | start <= k < pos :: IsNumberChar(input[k])
        decreases |input| - pos
      {
        text := text + [input[pos]];
        pos := pos + 1;
      }
      NumberRunIs(input, start, pos);
      assert s[..pos - start] == text && s[pos - start..] == Rest();
      return Lexing.LexNumber(text);
    }

    /** `lex_identifier`; `first` has been read. */
    method LexIdentifier(first: char) returns (t: Token)
      requires Valid() && pos > 0 && input[pos - 1] == first && (IsLetter(first) || first == '_')
      modifies this`pos
      ensures Valid() && var s := old(input[pos - 1..]); var n := WordRun(s, u); t == Keyword(s[..n]) && Rest() == s[n..]
    {
      hide Keyword, WordRun;
      ghost var start, s := pos - 1, input[pos - 1..];
      var word := [first];
      while pos < |input| && IsWordChar(input[pos], u)
        invariant start < pos <= |input| && word == input[start..pos]
        invariant forall k | start <= k < pos :: IsWordChar(input[k], u)
        decreases |input| - pos
      {
        word := word + [input[pos]];
        pos := pos + 1;
      }
      WordRunIs(input, start, pos, u);
      assert s[..pos - start] == word && s[pos - start..] == Rest();
      return Keyword(word);
    }
  }

  lemma {:induction false} NumberRunIs(s: string, i: nat, j: nat)
    requires i <= j <= |s| && (j < |s| ==> !IsNumberChar(s[j])) && forall k | i <= k < j :: IsNumberChar(s[k])
    ensures NumberRun(s[i..]) == j - i
    decreases j - i
  {
    if i < j {
      assert s[i..][1..] == s[i + 1..];
      NumberRunIs(s, i + 1, j);
    }
  }

  lemma {:induction false} WordRunIs(s: string, i: nat, j: nat, u: Unicode)
    requires i <= j <= |s| && (j < |s| ==> !IsWordChar(s[j], u)) && forall k | i <= k < j :: IsWordChar(s[k], u)
    ensures WordRun(s[i..], u) == j - i
    decreases j - i
  {
    if i < j {
      assert s[i..][1..] == s[i + 1..];
      WordRunIs(s, i + 1, j, u);
    }
  }

  /** What was read of a string, and the rest of it. */
  function Behind(s: string, r: (string, string)): (string, string) {
    (s + r.0, r.1)
  }

  lemma BehindOne(s: string, c: char, r: (string, string))
    ensures Behind(s, ([c] + r.0, r.1)) == Behind(s + [c], r)
  {
    assert s + ([c] + r.0) == s + [c] + r.0;
  }

  lemma NextSkips(s: string, u: Unicode)
    requires s != "" && IsSpace(s[0])
    ensures Next(s, u) == Next(s[1..], u)
  {
  }
}
