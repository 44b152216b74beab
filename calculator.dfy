// The calculator object: the expression buffer and the history log, and
// the operations that update them in place. Rendering, animation and the
// key-value store are outside this model; the host evaluator and the
// clock are parameters.

module Calculator {

  import opened InputBuffer
  import opened TextRewrite
  import opened History

  datatype Option<T> = None | Some(value: T)

  class AdvancedCalculator {

    /** The expression being typed. */
    var currentInput: string
    /** Past calculations, newest first. */
    var history: seq<Entry>

    /** The history never holds more than twenty entries. */
    predicate Valid()
      reads this
    {
      |history| <= MaxEntries
    }

    constructor ()
      ensures Valid()
      ensures currentInput == "" && history == []
    {
      currentInput := "";
      history := [];
    }

    /** What the display shows: the buffer, or "0" while it is empty. The
        buffer itself is not changed. */
    function Display(): (d: string)
      reads this
      ensures d != ""
      ensures currentInput == "" ==> d == "0"
      ensures currentInput != "" ==> d == currentInput
    {
      if currentInput == "" then "0" else currentInput
    }

    /** Appends a digit or a decimal point. A `.` is refused when the
        operand being typed already has one; anything else is appended
        verbatim. */
    method AppendToInput(value: string)
      requires Valid()
      modifies this`currentInput
      ensures Valid()
      ensures value == "." && '.' in LastOperand(old(currentInput)) ==> currentInput == old(currentInput)
      ensures !(value == "." && '.' in LastOperand(old(currentInput))) ==> currentInput == old(currentInput) + value
      ensures |value| == 1 && OneDotPerOperand(old(currentInput)) ==> OneDotPerOperand(currentInput)
      ensures |value| == 1 && !IsOperator(value[0]) && NoAdjacentOperators(old(currentInput))
        ==> NoAdjacentOperators(currentInput)
    {
      if value == "." {
        var parts := Split(currentInput);
        var lastPart := parts[|parts| - 1];
        if '.' in lastPart {
          return;
        }
      }
      ghost var before := currentInput;
      currentInput := currentInput + value;
      if |value| == 1 {
        assert currentInput == before + [value[0]];
        if OneDotPerOperand(before) {
          AppendKeepsOneDot(before, value[0]);
        }
        if NoAdjacentOperators(before) && !IsOperator(value[0]) {
          AppendKeepsNoAdjacent(before, value[0]);
        }
      }
    }

    /** Enters a binary operator. On an empty buffer only `-` does
        anything (it starts a negative number); after an operator the new
        one takes the old one's place; otherwise it is appended. */
    method HandleOperator(op: string)
      requires Valid()
      modifies this`currentInput
      ensures Valid()
      ensures old(currentInput) == "" ==> currentInput == (if op == "-" then "-" else "")
      ensures old(currentInput) != "" && IsOperator(old(currentInput)[|old(currentInput)| - 1])
        ==> currentInput == old(currentInput)[..|old(currentInput)| - 1] + op
      ensures old(currentInput) != "" && !IsOperator(old(currentInput)[|old(currentInput)| - 1])
        ==> currentInput == old(currentInput) + op
      ensures |op| == 1 && IsOperator(op[0]) && NoAdjacentOperators(old(currentInput))
        ==> NoAdjacentOperators(currentInput)
      ensures |op| == 1 && IsOperator(op[0]) && OneDotPerOperand(old(currentInput))
        ==> OneDotPerOperand(currentInput)
    {
      ghost var before := currentInput;
      if currentInput == "" && op == "-" {
        currentInput := "-";
        AppendKeepsNoAdjacent([], '-');
        AppendKeepsOneDot([], '-');
      } else if currentInput != "" {
        var lastChar := currentInput[|currentInput| - 1];
        var kept := currentInput[..|currentInput| - 1];
        assert before == kept + [lastChar];
        if IsOperator(lastChar) {
          currentInput := kept + op;
          if |op| == 1 && IsOperator(op[0]) {
            assert currentInput == kept + [op[0]];
            if NoAdjacentOperators(before) {
              DropLastKeepsNoAdjacent(kept, lastChar);
              assert kept != [] ==> before[|kept| - 1] == kept[|kept| - 1];
              AppendKeepsNoAdjacent(kept, op[0]);
            }
            if OneDotPerOperand(before) {
              DropLastKeepsOneDot(kept, lastChar);
              AppendKeepsOneDot(kept, op[0]);
            }
          }
        } else {
          currentInput := currentInput + op;
          if |op| == 1 && IsOperator(op[0]) {
            assert currentInput == before + [op[0]];
            if NoAdjacentOperators(before) {
              AppendKeepsNoAdjacent(before, op[0]);
            }
            if OneDotPerOperand(before) {
              AppendKeepsOneDot(before, op[0]);
            }
          }
        }
      }
    }

    /** The `x^y` key: appends the power marker, which is not an operator,
        so it neither collapses with a neighbouring operator nor starts a
        new operand. */
    method AppendPowerMarker()
      requires Valid()
      modifies this`currentInput
      ensures Valid()
      ensures currentInput == old(currentInput) + "^"
      ensures LastOperand(currentInput) == LastOperand(old(currentInput)) + "^"
      ensures OneDotPerOperand(old(currentInput)) ==> OneDotPerOperand(currentInput)
      ensures NoAdjacentOperators(old(currentInput)) ==> NoAdjacentOperators(currentInput)
    {
      ghost var before := currentInput;
      currentInput := currentInput + "^";
      SplitSnoc(before, '^');
      if OneDotPerOperand(before) {
        AppendKeepsOneDot(before, '^');
      }
      if NoAdjacentOperators(before) {
        AppendKeepsNoAdjacent(before, '^');
      }
    }

    /** Removes the last character; nothing happens on an empty buffer. */
    method Delete()
      requires Valid()
      modifies this`currentInput
      ensures Valid()
      ensures old(currentInput) == "" ==> currentInput == ""
      ensures old(currentInput) != "" ==> currentInput == old(currentInput)[..|old(currentInput)| - 1]
      ensures OneDotPerOperand(old(currentInput)) ==> OneDotPerOperand(currentInput)
      ensures NoAdjacentOperators(old(currentInput)) ==> NoAdjacentOperators(currentInput)
    {
      if currentInput != "" {
        ghost var before := currentInput;
        var lastChar := currentInput[|currentInput| - 1];
        currentInput := currentInput[..|currentInput| - 1];
        assert before == currentInput + [lastChar];
        if OneDotPerOperand(before) {
          DropLastKeepsOneDot(currentInput, lastChar);
        }
        if NoAdjacentOperators(before) {
          DropLastKeepsNoAdjacent(currentInput, lastChar);
        }
      }
    }

    /** Empties the buffer. */
    method Clear()
      requires Valid()
      modifies this`currentInput
      ensures Valid()
      ensures currentInput == ""
    {
      currentInput := "";
    }

    /** `=`: on an empty buffer nothing happens. Otherwise the buffer,
        with every `^` rewritten to `**` and nothing else changed, is
        handed to `evaluate` (the host evaluator, its finiteness check
        and the result formatting together; None is an error). On success
        the calculation is recorded and the formatted result replaces the
        buffer; on an error both stay as they were. */
    method Calculate(evaluate: string -> Option<string>, now: int)
      requires Valid()
      modifies this
      ensures Valid()
      ensures old(currentInput) == "" ==> currentInput == old(currentInput) && history == old(history)
      ensures old(currentInput) != "" && evaluate(RewritePower(old(currentInput))).None?
        ==> currentInput == old(currentInput) && history == old(history)
      ensures old(currentInput) != "" && evaluate(RewritePower(old(currentInput))).Some?
        ==> currentInput == evaluate(RewritePower(old(currentInput))).value
            && history == Pushed(old(history), Entry(old(currentInput), currentInput, now))
    {
      if currentInput == "" {
        return;
      }
      var expression := RewritePower(currentInput);
      var outcome := evaluate(expression);
      if outcome.Some? {
        var formatted := outcome.value;
        PushHistory(currentInput, formatted, now);
        currentInput := formatted;
      }
    }

    /** Records a calculation at the front of the log, dropping the oldest
        entry once the log would exceed twenty. */
    method PushHistory(expression: string, result: string, now: int)
      requires Valid()
      modifies this`history
      ensures Valid()
      ensures history == Pushed(old(history), Entry(expression, result, now))
      ensures |history| == Min(|old(history)| + 1, MaxEntries)
      ensures history[0] == Entry(expression, result, now)
      ensures history[1..] == old(history)[..|history| - 1]
    {
      var e := Entry(expression, result, now);
      history := [e] + history;
      if |history| > MaxEntries {
        history := history[..|history| - 1];
      }
    }

    /** Empties the log. */
    method ClearHistory()
      requires Valid()
      modifies this`history
      ensures Valid()
      ensures history == []
    {
      history := [];
    }

    /** Loads a saved log. `None` stands for a missing or unreadable
        record, or one whose history is not an array: the log is then left
        alone. A saved array is cut to its first twenty entries. */
    method RestoreHistory(saved: Option<seq<Entry>>)
      requires Valid()
      modifies this`history
      ensures Valid()
      ensures saved.None? ==> history == old(history)
      ensures saved.Some? ==> |history| == Min(|saved.value|, MaxEntries)
                              && history == saved.value[..|history|]
      ensures saved.Some? && |saved.value| <= MaxEntries ==> history == saved.value
    {
      if saved.Some? {
        var entries := saved.value;
        history := if |entries| > MaxEntries then entries[..MaxEntries] else entries;
      }
    }

    /** Picking a history entry copies its result into the buffer, as
        text, without recomputing it; an index outside the log does
        nothing. */
    method ReuseHistoryEntry(index: int)
      requires Valid()
      modifies this`currentInput
      ensures Valid()
      ensures 0 <= index < |history| ==> currentInput == history[index].result
      ensures !(0 <= index < |history|) ==> currentInput == old(currentInput)
    {
      if 0 <= index < |history| {
        currentInput := history[index].result;
      }
    }
  }

  /** A second decimal point in one operand is refused. */
  method DecimalPointSession() {
    var device := new AdvancedCalculator();
    device.AppendToInput("3.");
    assert device.currentInput == "3.";
    SplitSnoc("3", '.');
    assert "3"[..0] == "";
    assert "3" + ['.'] == "3.";
    device.AppendToInput(".");
    assert device.currentInput == "3.";
  }

  /** A leading minus is seeded; other operators on an empty buffer do
      nothing. */
  method LeadingMinusSession() {
    var device := new AdvancedCalculator();
    device.HandleOperator("*");
    assert device.currentInput == "";
    device.HandleOperator("-");
    assert device.currentInput == "-";
  }

  /** The last of two operators in a row wins. */
  method CollapseSession() {
    var device := new AdvancedCalculator();
    device.AppendToInput("5");
    device.HandleOperator("+");
    assert device.currentInput == "5+";
    device.HandleOperator("*");
    assert device.currentInput == "5*";
  }
}
