/**
 * Rewriting $N placeholders to ?N in SQL text. A string stands for its bytes,
 * one char each. The loop is proved equal to a character-level automaton, and
 * the automaton to one that knows the escaping rules of SQL literals.
 */
module Placeholders {

  // ----- the lexer ----------------------------------------------------------

  /**
   * The lexical state at a byte: plain code, inside a quoted run or a comment,
   * or at the second byte of the two that open or close a block comment. A
   * line comment ends before its newline.
   */
  datatype Lex = Code | Single | Double | LineComment | OpenBlock | Block | CloseBlock

  predicate At(q: string, i: nat, c: char) {
    i < |q| && q[i] == c
  }

  predicate DigitAt(q: string, i: nat) {
    i < |q| && '0' <= q[i] <= '9'
  }

  /** The state at byte i + 1, given the state at byte i. */
  function Advance(st: Lex, q: string, i: nat): Lex
    requires i < |q|
  {
    match st
    case Code =>
      if q[i] == '\'' then Single
      else if q[i] == '"' then Double
      else if q[i] == '-' && At(q, i + 1, '-') then LineComment
      else if q[i] == '/' && At(q, i + 1, '*') then OpenBlock
      else Code
    case Single => if q[i] == '\'' then Code else Single
    case Double => if q[i] == '"' then Code else Double
    case LineComment => if At(q, i + 1, '\n') then Code else LineComment
    case OpenBlock => Block
    case Block => if q[i] == '*' && At(q, i + 1, '/') then CloseBlock else Block
    case CloseBlock => Code
  }

  function StateAt(q: string, i: nat): Lex
    requires i <= |q|
  {
    if i == 0 then Code else Advance(StateAt(q, i - 1), q, i - 1)
  }

  predicate IsPlaceholder(q: string, i: nat) {
    At(q, i, '$') && DigitAt(q, i + 1) && StateAt(q, i) == Code
  }

  /** Exactly the placeholders' dollars become question marks. */
  function Rewrite(q: string): (out: string)
    ensures |out| == |q|
    ensures forall i :: 0 <= i < |q| ==> out[i] == if IsPlaceholder(q, i) then '?' else q[i]
  {
    seq(|q|, i requires 0 <= i < |q| => if IsPlaceholder(q, i) then '?' else q[i])
  }

  // ----- the loop -----------------------------------------------------------

  /** strings.IndexByte from position `from`; -1 when absent. */
  function IndexFrom(q: string, from: nat, c: char): (r: int)
    requires from <= |q|
    ensures r == -1 || (from <= r < |q| && q[r] == c)
    ensures forall k :: from <= k < (if r == -1 then |q| else r) ==> q[k] != c
    decreases |q| - from
  {
    if from == |q| then -1 else if q[from] == c then from else IndexFrom(q, from + 1, c)
  }

  /** strings.Index of the comment closer from position `from`; -1 when absent. */
  function CloserFrom(q: string, from: nat): (r: int)
    requires from <= |q|
    ensures r == -1 || (from <= r && At(q, r, '*') && At(q, r + 1, '/'))
    ensures forall k :: from <= k < (if r == -1 then |q| else r) ==> !(At(q, k, '*') && At(q, k + 1, '/'))
    decreases |q| - from
  {
    if from == |q| then -1
    else if At(q, from, '*') && At(q, from + 1, '/') then from
    else CloserFrom(q, from + 1)
  }

  ghost predicate NoPlaceholder(q: string, i: nat, j: nat) {
    forall k :: i <= k < j ==> !IsPlaceholder(q, k)
  }

  /** A state the lexer does not leave between `i` and `j`; no placeholder starts there if it is not code. */
  lemma {:induction false} StaysIn(st: Lex, q: string, i: nat, j: nat)
    requires i <= j <= |q| && StateAt(q, i) == st
    requires forall k :: i <= k < j ==> Advance(st, q, k) == st
    ensures StateAt(q, j) == st
    ensures st != Code ==> NoPlaceholder(q, i, j)
    decreases j - i
  {
    if i < j {
      assert StateAt(q, i + 1) == Advance(st, q, i);
      StaysIn(st, q, i + 1, j);
    }
  }

  /** Bytes that start no placeholder are copied. */
  lemma CopiedRun(q: string, i: nat, j: nat)
    requires i <= j <= |q| && NoPlaceholder(q, i, j)
    ensures Rewrite(q)[..i] + q[i..j] == Rewrite(q)[..j]
  {
  }

  /** Everything before `j` has been rewritten, and the lexer is back in code there or at the end. */
  ghost predicate Done(q: string, i: nat, j: nat)
    requires i <= j <= |q|
  {
    && Rewrite(q)[..i] + q[i..j] == Rewrite(q)[..j]
    && (j < |q| ==> StateAt(q, j) == Code)
  }

  lemma {:induction false} InQuotes(st: Lex, quote: char, q: string, i: nat, j: nat)
    requires (st == Single && quote == '\'') || (st == Double && quote == '"')
    requires i <= j <= |q| && StateAt(q, i) == st
    requires forall k :: i <= k < j ==> q[k] != quote
    ensures StateAt(q, j) == st && NoPlaceholder(q, i, j)
    decreases j - i
  {
    if i < j {
      assert StateAt(q, i + 1) == Advance(st, q, i);
      InQuotes(st, quote, q, i + 1, j);
    }
  }

  /** A quoted run, with its closing quote or to the end. */
  lemma QuotedRun(q: string, i: nat, end: int)
    requires i < |q| && StateAt(q, i) == Code && (q[i] == '\'' || q[i] == '"')
    requires end == -1 || (i < end < |q| && q[end] == q[i])
    requires forall k :: i + 1 <= k < (if end == -1 then |q| else end) ==> q[k] != q[i]
    ensures NoPlaceholder(q, i, if end == -1 then |q| else end + 1)
    ensures end != -1 ==> StateAt(q, end + 1) == Code
  {
    var stop := if end == -1 then |q| else end;
    var st := if q[i] == '\'' then Single else Double;
    assert StateAt(q, i + 1) == Advance(Code, q, i);
    InQuotes(st, q[i], q, i + 1, stop);
    if end != -1 {
      assert StateAt(q, end + 1) == Advance(st, q, end);
    }
  }

  /** A line comment up to its newline or the end. */
  lemma LineCommentRun(q: string, i: nat, end: int)
    requires i <= |q| && StateAt(q, i) == Code && At(q, i, '-') && At(q, i + 1, '-')
    requires end == -1 || (i <= end < |q| && q[end] == '\n')
    requires forall k :: i <= k < (if end == -1 then |q| else end) ==> q[k] != '\n'
    ensures (end == -1 || i < end) && Done(q, i, if end == -1 then |q| else end)
  {
    var stop := if end == -1 then |q| else end;
    assert StateAt(q, i + 1) == LineComment;
    StaysIn(LineComment, q, i + 1, stop - 1);
    assert StateAt(q, stop) == Advance(LineComment, q, stop - 1);
    CopiedRun(q, i, stop);
  }

  /** A block comment with its closer or to the end. */
  lemma BlockRun(q: string, i: nat, end: int)
    requires i <= |q| && StateAt(q, i) == Code && At(q, i, '/') && At(q, i + 1, '*')
    requires end == -1 || (i + 2 <= end && At(q, end, '*') && At(q, end + 1, '/'))
    requires forall k :: i + 2 <= k < (if end == -1 then |q| else end) ==> !(At(q, k, '*') && At(q, k + 1, '/'))
    ensures Done(q, i, if end == -1 then |q| else end + 2)
  {
    var stop := if end == -1 then |q| else end;
    assert StateAt(q, i + 1) == OpenBlock;
    assert StateAt(q, i + 2) == Block;
    forall k | i + 2 <= k < stop ensures Advance(Block, q, k) == Block {
      assert !(At(q, k, '*') && At(q, k + 1, '/'));
    }
    StaysIn(Block, q, i + 2, stop);
    if end != -1 {
      assert StateAt(q, end + 1) == CloseBlock;
      assert StateAt(q, end + 2) == Code;
    }
    CopiedRun(q, i, if end == -1 then |q| else end + 2);
  }

  /** A placeholder and its digits. */
  lemma PlaceholderRun(q: string, i: nat, j: nat)
    requires i + 1 < j <= |q| && StateAt(q, i) == Code && q[i] == '$'
    requires forall k :: i < k < j ==> '0' <= q[k] <= '9'
    ensures Rewrite(q)[..i] + "?" + q[i + 1..j] == Rewrite(q)[..j] && StateAt(q, j) == Code
  {
    StaysIn(Code, q, i, j);
    CopiedRun(q, i + 1, j);
    assert Rewrite(q)[..i + 1] == Rewrite(q)[..i] + "?";
  }

  // The four runs of the switch. `closed` is false when the run reaches the end of the text.

  method SkipQuoted(q: string, i: nat) returns (next: nat, closed: bool)
    requires i < |q| && StateAt(q, i) == Code && (q[i] == '\'' || q[i] == '"')
    ensures i < next <= |q| && Done(q, i, next) && (!closed ==> next == |q|)
  {
    var end := IndexFrom(q, i + 1, q[i]);
    QuotedRun(q, i, end);
    CopiedRun(q, i, if end < 0 then |q| else end + 1);
    if end < 0 {
      return |q|, false;
    }
    return end + 1, true;
  }

  method SkipLineComment(q: string, i: nat) returns (next: nat, closed: bool)
    requires i < |q| && StateAt(q, i) == Code && At(q, i, '-') && At(q, i + 1, '-')
    ensures i < next <= |q| && Done(q, i, next) && (!closed ==> next == |q|)
  {
    var end := IndexFrom(q, i, '\n');
    LineCommentRun(q, i, end);
    if end < 0 {
      return |q|, false;
    }
    return end, true;
  }

  method SkipBlockComment(q: string, i: nat) returns (next: nat, closed: bool)
    requires i < |q| && StateAt(q, i) == Code && At(q, i, '/') && At(q, i + 1, '*')
    ensures i < next <= |q| && Done(q, i, next) && (!closed ==> next == |q|)
  {
    var end := CloserFrom(q, i + 2);
    BlockRun(q, i, end);
    if end < 0 {
      return |q|, false;
    }
    return end + 2, true;
  }

  method SkipDigits(q: string, i: nat) returns (j: nat)
    requires i < |q| && StateAt(q, i) == Code && At(q, i, '$') && DigitAt(q, i + 1)
    ensures i + 1 < j <= |q| && StateAt(q, j) == Code
    ensures Rewrite(q)[..i] + "?" + q[i + 1..j] == Rewrite(q)[..j]
  {
    j := i + 1;
    while j < |q| && '0' <= q[j] <= '9'
      invariant i < j <= |q| && forall k :: i < k < j ==> '0' <= q[k] <= '9'
    {
      j := j + 1;
    }
    PlaceholderRun(q, i, j);
  }

  method NumberPlaceholders(query: string) returns (out: string)
    ensures out == Rewrite(query)
  {
    if '$' !in query {
      NoDollarNoChange(query);
      return query;
    }
    var b := "";
    var i := 0;
    while i < |query|
      invariant i <= |query| && b == Rewrite(query)[..i]
      invariant i < |query| ==> StateAt(query, i) == Code
      decreases |query| - i
    {
      var c := query[i];
      var next, closed := i + 1, true;
      if c == '\'' || c == '"' {
        next, closed := SkipQuoted(query, i);
        b := b + query[i..next];
      } else if c == '-' && i + 1 < |query| && query[i + 1] == '-' {
        next, closed := SkipLineComment(query, i);
        b := b + query[i..next];
      } else if c == '/' && i + 1 < |query| && query[i + 1] == '*' {
        next, closed := SkipBlockComment(query, i);
        b := b + query[i..next];
      } else if c == '$' && i + 1 < |query| && '0' <= query[i + 1] <= '9' {
        next := SkipDigits(query, i);
        b := b + "?" + query[i + 1..next];
      } else {
        OrdinaryByte(query, i);
        b := b + [c];
      }
      if !closed {
        return b;
      }
      i := next;
    }
    return b;
  }

  lemma OrdinaryByte(q: string, i: nat)
    requires i < |q| && StateAt(q, i) == Code && Advance(Code, q, i) == Code && !IsPlaceholder(q, i)
    ensures Rewrite(q)[..i] + [q[i]] == Rewrite(q)[..i + 1] && StateAt(q, i + 1) == Code
  {
  }

  // ----- properties of the rewriting ----------------------------------------

  /** The rewritten text has the same lexical structure, byte by byte. */
  lemma {:induction false} RewriteKeepsStates(q: string, i: nat)
    requires i <= |q|
    ensures StateAt(Rewrite(q), i) == StateAt(q, i)
  {
    if i > 0 {
      RewriteKeepsStates(q, i - 1);
    }
  }

  /** Nothing is left to rewrite: the rewriting is idempotent. */
  lemma RewriteIsIdempotent(q: string)
    ensures Rewrite(Rewrite(q)) == Rewrite(q)
    ensures forall i :: 0 <= i < |q| ==> !IsPlaceholder(Rewrite(q), i)
  {
    var out := Rewrite(q);
    forall i | 0 <= i < |q| ensures !IsPlaceholder(out, i) {
      RewriteKeepsStates(q, i);
    }
  }

  /** The fast path: text without a dollar is its own rewriting. */
  lemma NoDollarNoChange(q: string)
    requires '$' !in q
    ensures Rewrite(q) == q
  {
    forall i | 0 <= i < |q| ensures !IsPlaceholder(q, i) {
      assert q[i] in q;
    }
  }

  // ----- against SQL's own escaping rule ------------------------------------

  /** The state in which a doubled quote is an escape inside its literal. */
  datatype SqlLex = Plain(st: Lex) | EscapedSingle | EscapedDouble

  function SqlAdvance(st: SqlLex, q: string, i: nat): SqlLex
    requires i < |q|
  {
    match st
    case EscapedSingle => Plain(Single)
    case EscapedDouble => Plain(Double)
    case Plain(s) =>
      if s == Single && q[i] == '\'' && At(q, i + 1, '\'') then EscapedSingle
      else if s == Double && q[i] == '"' && At(q, i + 1, '"') then EscapedDouble
      else Plain(Advance(s, q, i))
  }

  function SqlStateAt(q: string, i: nat): SqlLex
    requires i <= |q|
  {
    if i == 0 then Plain(Code) else SqlAdvance(SqlStateAt(q, i - 1), q, i - 1)
  }

  /** The two lexers differ only at the second quote of a doubled one. */
  lemma {:induction false} DoubledQuotesAgree(q: string, i: nat)
    requires i <= |q|
    ensures match SqlStateAt(q, i)
            case Plain(st) => StateAt(q, i) == st
            case EscapedSingle => StateAt(q, i) == Code && At(q, i, '\'')
            case EscapedDouble => StateAt(q, i) == Code && At(q, i, '"')
  {
    if i > 0 {
      DoubledQuotesAgree(q, i - 1);
    }
  }

  /** So a byte is rewritten exactly when it starts a placeholder in SQL code. */
  lemma RewritesExactlyCodePlaceholders(q: string, i: nat)
    requires i < |q|
    ensures Rewrite(q)[i] != q[i] <==> q[i] == '$' && DigitAt(q, i + 1) && SqlStateAt(q, i) == Plain(Code)
    ensures Rewrite(q)[i] != q[i] ==> Rewrite(q)[i] == '?'
  {
    DoubledQuotesAgree(q, i);
  }
}
