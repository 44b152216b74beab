// The expression buffer of the calculator: which characters separate
// operands, how the buffer splits into operands, and the two shape
// invariants the input operations keep (at most one decimal point per
// operand, never two operators in a row).

module InputBuffer {

  /** The five binary operators the buffer logic recognises. The power
      marker `^` is deliberately not one of them. */
  predicate IsOperator(c: char) {
    c == '+' || c == '-' || c == '*' || c == '/' || c == '%'
  }

  /** No character of `p` is an operator. */
  predicate OperatorFree(p: string) {
    forall j :: 0 <= j < |p| ==> !IsOperator(p[j])
  }

  /** The operator characters of `s`, in order. */
  function Operators(s: string): (ops: string)
    ensures |ops| <= |s|
    ensures forall i :: 0 <= i < |ops| ==> IsOperator(ops[i])
  {
    if s == [] then []
    else if IsOperator(s[|s| - 1]) then Operators(s[..|s| - 1]) + [s[|s| - 1]]
    else Operators(s[..|s| - 1])
  }

  /** Splitting `s` at every operator character, as a split on the
      character class of the five operators does: one operand more than
      there are operators, empty operands kept. */
  function Split(s: string): (parts: seq<string>)
    ensures |parts| == |Operators(s)| + 1
    ensures forall i :: 0 <= i < |parts| ==> OperatorFree(parts[i])
  {
    if s == [] then [""]
    else
      var init := Split(s[..|s| - 1]);
      var c := s[|s| - 1];
      if IsOperator(c) then init + [""]
      else init[..|init| - 1] + [init[|init| - 1] + [c]]
  }

  /** Operands glued back together with the operators between them:
      p0 o0 p1 o1 ... pk. */
  function Interleave(parts: seq<string>, ops: string): string
    requires |parts| == |ops| + 1
  {
    if ops == [] then parts[0]
    else Interleave(parts[..|parts| - 1], ops[..|ops| - 1]) + [ops[|ops| - 1]] + parts[|parts| - 1]
  }

  lemma InterleaveExtendLast(parts: seq<string>, ops: string, c: char)
    requires |parts| == |ops| + 1
    ensures Interleave(parts[..|parts| - 1] + [parts[|parts| - 1] + [c]], ops) == Interleave(parts, ops) + [c]
  {
  }

  /** Split loses nothing: putting the operators back between the
      operands gives the buffer again. */
  lemma {:induction false} SplitInterleave(s: string)
    ensures Interleave(Split(s), Operators(s)) == s
  {
    if s != [] {
      var rest, c := s[..|s| - 1], s[|s| - 1];
      assert s == rest + [c];
      SplitInterleave(rest);
      var init, ops := Split(rest), Operators(rest);
      if IsOperator(c) {
        assert (init + [""])[..|init|] == init;
        assert (ops + [c])[..|ops|] == ops;
      } else {
        InterleaveExtendLast(init, ops, c);
      }
    }
  }

  /** What splitting `s + [c]` gives, in terms of splitting `s`. */
  lemma SplitSnoc(s: string, c: char)
    ensures var parts := Split(s);
      Split(s + [c]) == if IsOperator(c) then parts + [""]
                        else parts[..|parts| - 1] + [parts[|parts| - 1] + [c]]
  {
  }

  lemma {:induction false} SplitLastIsSuffix(s: string)
    ensures var r := Split(s)[|Split(s)| - 1];
      |r| <= |s| && r == s[|s| - |r|..] && (|r| < |s| ==> IsOperator(s[|s| - |r| - 1]))
  {
    if s != [] {
      var rest, c := s[..|s| - 1], s[|s| - 1];
      SplitLastIsSuffix(rest);
      var r := Split(rest)[|Split(rest)| - 1];
      if !IsOperator(c) {
        assert Split(s)[|Split(s)| - 1] == r + [c];
        assert s == rest + [c];
      }
    }
  }

  /** The operand being typed: the last part of the split, which is the
      text after the last operator (the whole buffer when there is
      none). */
  function LastOperand(s: string): (r: string)
    ensures |r| <= |s| && r == s[|s| - |r|..]
    ensures OperatorFree(r)
    ensures |r| < |s| ==> IsOperator(s[|s| - |r| - 1])
  {
    SplitLastIsSuffix(s);
    var parts := Split(s);
    parts[|parts| - 1]
  }

  /** Every operand of `s` holds at most one decimal point. */
  predicate OneDotPerOperand(s: string) {
    forall i :: 0 <= i < |Split(s)| ==> multiset(Split(s)[i])['.'] <= 1
  }

  /** No two operators stand next to each other in `s`. */
  predicate NoAdjacentOperators(s: string) {
    forall i :: 0 <= i < |s| - 1 ==> !(IsOperator(s[i]) && IsOperator(s[i + 1]))
  }

  /** Appending one character keeps one decimal point per operand, as
      long as a `.` is only appended when the last operand has none. */
  lemma AppendKeepsOneDot(s: string, c: char)
    requires OneDotPerOperand(s)
    requires c == '.' ==> '.' !in LastOperand(s)
    ensures OneDotPerOperand(s + [c])
  {
  }

  /** Dropping the last character keeps one decimal point per operand. */
  lemma DropLastKeepsOneDot(s: string, c: char)
    requires OneDotPerOperand(s + [c])
    ensures OneDotPerOperand(s)
  {
    SplitSnoc(s, c);
    var parts := Split(s);
    var after := Split(s + [c]);
    forall i | 0 <= i < |parts| ensures multiset(parts[i])['.'] <= 1 {
      assert multiset(after[i])['.'] <= 1;
      if !IsOperator(c) && i == |parts| - 1 {
        assert multiset(after[i])['.'] == multiset(parts[i])['.'] + (if c == '.' then 1 else 0);
      }
    }
  }

  /** Appending a character after a non-operator, or appending a
      non-operator, never puts two operators side by side. */
  lemma AppendKeepsNoAdjacent(s: string, c: char)
    requires NoAdjacentOperators(s)
    requires s != [] && IsOperator(c) ==> !IsOperator(s[|s| - 1])
    ensures NoAdjacentOperators(s + [c])
  {
  }

  /** A prefix of a buffer without adjacent operators has none either. */
  lemma DropLastKeepsNoAdjacent(s: string, c: char)
    requires NoAdjacentOperators(s + [c])
    ensures NoAdjacentOperators(s)
  {
    var t := s + [c];
    forall i | 0 <= i < |s| - 1 ensures !(IsOperator(s[i]) && IsOperator(s[i + 1])) {
      assert t[i] == s[i] && t[i + 1] == s[i + 1];
    }
  }
}
