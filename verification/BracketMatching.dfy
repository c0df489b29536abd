/**
 What the bracket matchers compute: angle brackets never matter to a search that starts at
 a bracket, and the forward and the backward search are inverse to each other.
 */
module BracketMatching {
  import opened Wrappers
  import opened Brackets

  // ---------------------------------------------------------------- the reference: plain bracket scans

  /** A plain scan knows brackets only: every other character is ordinary. */
  function PlainStep(c: char, i: nat, stack: seq<char>): LineResult {
    if IsOpener(c) then Open(stack + [c])
    else if !IsCloser(c) then Open(stack)
    else if stack == [] || !Closes(Last(stack), c) then Unclosed
    else Popped(stack, Found(i + 1))
  }

  function Plain(text: string, i: nat, stack: seq<char>): (r: LineResult)
    requires i <= |text|
    ensures r.Found? ==> i < r.pos <= |text|
    decreases |text| - i
  {
    if i == |text| then Open(stack)
    else
      match PlainStep(text[i], i, stack)
      case Open(stack') => Plain(text, i + 1, stack')
      case result => result
  }

  function PlainBackStep(c: char, i: nat, stack: seq<char>): LineResult {
    if IsCloser(c) then Open(stack + [c])
    else if !IsOpener(c) then Open(stack)
    else if stack == [] || !Closes(c, Last(stack)) then Unclosed
    else Popped(stack, Found(i))
  }

  function PlainBack(text: string, end: nat, stack: seq<char>): (r: LineResult)
    requires end <= |text|
    ensures r.Found? ==> r.pos < end
    decreases end
  {
    if end == 0 then Open(stack)
    else
      match PlainBackStep(text[end - 1], end - 1, stack)
      case Open(stack') => PlainBack(text, end - 1, stack')
      case result => result
  }

  // ---------------------------------------------------------------- erasing the tentative angle brackets

  function Erase(stack: seq<char>): seq<char> {
    if stack == [] then [] else Erase(Init(stack)) + if IsBracket(Last(stack)) then [Last(stack)] else []
  }

  /** A stack a search from a bracket carries: that bracket at the bottom, angle brackets only above. */
  predicate Grounded(stack: seq<char>, angle: char) {
    stack != [] && IsBracket(stack[0]) && forall i | 0 <= i < |stack| :: IsBracket(stack[i]) || stack[i] == angle
  }

  lemma {:induction false} ErasePush(stack: seq<char>, c: char)
    ensures Erase(stack + [c]) == if IsBracket(c) then Erase(stack) + [c] else Erase(stack)
  {
    assert Init(stack + [c]) == stack;
  }

  lemma {:induction false} ErasePop(stack: seq<char>, angle: char)
    requires Grounded(stack, angle) && Last(stack) == angle && !IsBracket(angle)
    ensures Grounded(Init(stack), angle) && Erase(Init(stack)) == Erase(stack)
  {
  }

  lemma {:induction false} ErasePopAll(stack: seq<char>, angle: char)
    requires Grounded(stack, angle) && !IsBracket(angle)
    ensures
      var popped := PopAll(stack, angle);
      && Grounded(popped, angle) && IsBracket(Last(popped))
      && Erase(popped) == Erase(stack)
      && Last(Erase(stack)) == Last(popped) && Init(Erase(stack)) == Erase(Init(popped))
    decreases |stack|
  {
    if Last(stack) == angle {
      ErasePopAll(Init(stack), angle);
    } else {
      assert Init(Erase(stack)) == Erase(Init(stack));
    }
  }

  lemma {:induction false} GroundedInit(stack: seq<char>, angle: char)
    requires Grounded(stack, angle) && |stack| > 1
    ensures Grounded(Init(stack), angle)
    ensures Erase(Init(stack)) != []
  {
    if |stack| == 2 {
      assert Erase(Init(stack)) == Erase([]) + [stack[0]];
    } else {
      GroundedInit(Init(stack), angle);
    }
  }

  /** Same outcome, except that an open search keeps its own stack. */
  predicate SameOutcome(scan: LineResult, plain: LineResult, angle: char) {
    match scan
    case Open(stack) => Grounded(stack, angle) && plain == Open(Erase(stack))
    case _ => plain == scan
  }

  lemma {:induction false} PushErased(stack: seq<char>, angle: char, c: char)
    requires Grounded(stack, angle) && (IsBracket(c) || c == angle)
    ensures SameOutcome(Open(stack + [c]), Open(if IsBracket(c) then Erase(stack) + [c] else Erase(stack)), angle)
  {
    ErasePush(stack, c);
  }

  lemma {:induction false} PopAngleErased(stack: seq<char>, angle: char, emptied: LineResult)
    requires Grounded(stack, angle) && Last(stack) == angle && !IsBracket(angle)
    ensures SameOutcome(Popped(stack, emptied), Open(Erase(stack)), angle)
  {
    ErasePop(stack, angle);
  }

  lemma {:induction false} PopAllErased(stack: seq<char>, angle: char)
    requires Grounded(stack, angle) && !IsBracket(angle)
    ensures PopAll(stack, angle) != [] && SameOutcome(Open(PopAll(stack, angle)), Open(Erase(stack)), angle)
  {
    ErasePopAll(stack, angle);
  }

  lemma {:induction false} PopBracketErased(stack: seq<char>, angle: char, emptied: LineResult)
    requires Grounded(stack, angle) && !IsBracket(angle) && !emptied.Open?
    ensures
      var popped := PopAll(stack, angle);
      && popped != [] && Erase(stack) != [] && Last(Erase(stack)) == Last(popped)
      && SameOutcome(Popped(popped, emptied), Popped(Erase(stack), emptied), angle)
  {
    ErasePopAll(stack, angle);
    var popped := PopAll(stack, angle);
    if |popped| > 1 {
      GroundedInit(popped, angle);
    }
  }

  /** One step of the forward matcher, whatever the character, is one step of the plain scan on the erased stack. */
  lemma {:induction false} ForwardErased(role: Role, c: char, i: nat, stack: seq<char>)
    requires Grounded(stack, '<') && (role == Opening <==> IsOpener(c)) && (role == Closing <==> IsCloser(c))
    ensures SameOutcome(Forward(role, c, i, stack), PlainStep(c, i, Erase(stack)), '<')
  {
    if role == Opening {
      PushErased(stack, '<', c);
    } else if role == Closing {
      PopBracketErased(stack, '<', Found(i + 1));
    } else if role == Semicolon {
      PopAllErased(stack, '<');
    } else if role == Less {
      PushErased(stack, '<', '<');
    } else if Last(stack) == '<' {
      PopAngleErased(stack, '<', if role == Greater then Found(i + 1) else Unclosed);
    }
  }

  lemma {:induction false} BackwardErased(role: Role, c: char, i: nat, stack: seq<char>)
    requires Grounded(stack, '>') && (role == Opening <==> IsOpener(c)) && (role == Closing <==> IsCloser(c))
    ensures SameOutcome(Backward(role, c, i, stack), PlainBackStep(c, i, Erase(stack)), '>')
  {
    if role == Closing {
      PushErased(stack, '>', c);
    } else if role == Opening {
      PopBracketErased(stack, '>', Found(i));
    } else if role == Semicolon {
      PopAllErased(stack, '>');
    } else if role == Greater {
      PushErased(stack, '>', '>');
    } else if Last(stack) == '>' {
      PopAngleErased(stack, '>', Found(i));
    }
  }

  lemma {:induction false} ForwardRoles(line: string, i: nat)
    requires i < |line|
    ensures ForwardRole(line, i) == Opening <==> IsOpener(line[i])
    ensures ForwardRole(line, i) == Closing <==> IsCloser(line[i])
  {
  }

  lemma {:induction false} BackwardRoles(line: string, i: nat)
    requires i < |line|
    ensures BackwardRole(line, i) == Opening <==> IsOpener(line[i])
    ensures BackwardRole(line, i) == Closing <==> IsCloser(line[i])
  {
  }

  /** Where a scan goes on after a step, if it does. */
  lemma {:induction false} ScanOn(line: string, i: nat, stack: seq<char>, step: LineResult)
    requires i < |line| && step == ForwardStep(line, i, stack)
    ensures Scan(line, i, stack) == if step.Open? then Scan(line, i + 1, step.stack) else step
  {
  }

  lemma {:induction false} PlainOn(line: string, i: nat, stack: seq<char>, step: LineResult)
    requires i < |line| && step == PlainStep(line[i], i, stack)
    ensures Plain(line, i, stack) == if step.Open? then Plain(line, i + 1, step.stack) else step
  {
  }

  lemma {:induction false} ForwardStepErased(line: string, i: nat, stack: seq<char>)
    requires i < |line| && Grounded(stack, '<')
    ensures SameOutcome(ForwardStep(line, i, stack), PlainStep(line[i], i, Erase(stack)), '<')
  {
    ForwardRoles(line, i);
    ForwardErased(ForwardRole(line, i), line[i], i, stack);
  }

  lemma {:induction false} ScanErased(line: string, i: nat, stack: seq<char>)
    requires i <= |line| && Grounded(stack, '<')
    ensures SameOutcome(Scan(line, i, stack), Plain(line, i, Erase(stack)), '<')
    decreases |line| - i
  {
    if i < |line| {
      var step, plain := ForwardStep(line, i, stack), PlainStep(line[i], i, Erase(stack));
      ForwardStepErased(line, i, stack);
      ScanOn(line, i, stack, step);
      PlainOn(line, i, Erase(stack), plain);
      if step.Open? {
        ScanErased(line, i + 1, step.stack);
      }
    }
  }

  lemma {:induction false} SkippedIsNoBracket(line: string, i: nat)
    requires i < |line| && SkipsPrevious(line, i)
    ensures !IsBracket(line[i - 1])
  {
    if EndsWithOperator(line[..i]) {
      OperatorEndsInNoBracket(line[..i]);
    }
  }

  lemma {:induction false} PlainBackBefore(line: string, end: nat, stack: seq<char>)
    requires 0 < end <= |line|
    ensures PlainBack(line, end - 1, stack) == PlainBack(line, Before(line, end), stack)
  {
    if SkipsPrevious(line, end - 1) {
      SkippedIsNoBracket(line, end - 1);
    }
  }

  lemma {:induction false} ScanBackOn(line: string, end: nat, stack: seq<char>, step: LineResult)
    requires 0 < end <= |line| && step == BackwardStep(line, end - 1, stack)
    ensures ScanBack(line, end, stack) == if step.Open? then ScanBack(line, Before(line, end), step.stack) else step
  {
  }

  lemma {:induction false} PlainBackOn(line: string, end: nat, stack: seq<char>, step: LineResult)
    requires 0 < end <= |line| && step == PlainBackStep(line[end - 1], end - 1, stack)
    ensures PlainBack(line, end, stack) == if step.Open? then PlainBack(line, end - 1, step.stack) else step
  {
  }

  lemma {:induction false} BackwardStepErased(line: string, i: nat, stack: seq<char>)
    requires i < |line| && Grounded(stack, '>')
    ensures SameOutcome(BackwardStep(line, i, stack), PlainBackStep(line[i], i, Erase(stack)), '>')
  {
    BackwardRoles(line, i);
    BackwardErased(BackwardRole(line, i), line[i], i, stack);
  }

  /** The same for the backward matcher; the characters it skips are never brackets. */
  lemma {:induction false} ScanBackErased(line: string, end: nat, stack: seq<char>)
    requires end <= |line| && Grounded(stack, '>')
    ensures SameOutcome(ScanBack(line, end, stack), PlainBack(line, end, Erase(stack)), '>')
    decreases end
  {
    if end > 0 {
      var step, plain := BackwardStep(line, end - 1, stack), PlainBackStep(line[end - 1], end - 1, Erase(stack));
      BackwardStepErased(line, end - 1, stack);
      ScanBackOn(line, end, stack, step);
      PlainBackOn(line, end, Erase(stack), plain);
      if step.Open? {
        PlainBackBefore(line, end, plain.stack);
        ScanBackErased(line, Before(line, end), step.stack);
      }
    }
  }

  // ---------------------------------------------------------------- from lines to the whole text

  function Flatten(lines: seq<string>): string {
    if lines == [] then "" else Flatten(lines[..|lines| - 1]) + lines[|lines| - 1]
  }

  /** Where line `n` starts in the text. */
  function Start(lines: seq<string>, n: nat): nat
    requires n <= |lines|
  {
    |Flatten(lines[..n])|
  }

  lemma {:induction false} FlattenPrefix(lines: seq<string>, k: nat)
    requires k <= |lines|
    ensures Flatten(lines[..k]) <= Flatten(lines)
    decreases |lines|
  {
    if k < |lines| {
      FlattenPrefix(lines[..|lines| - 1], k);
      assert lines[..|lines| - 1][..k] == lines[..k];
    } else {
      assert lines[..k] == lines;
    }
  }

  lemma {:induction false} LineAt(lines: seq<string>, n: nat)
    requires n < |lines|
    ensures Start(lines, n + 1) == Start(lines, n) + |lines[n]| <= |Flatten(lines)|
    ensures Flatten(lines)[Start(lines, n)..Start(lines, n + 1)] == lines[n]
  {
    FlattenPrefix(lines, n + 1);
    assert lines[..n + 1][..n] == lines[..n];
    assert Flatten(lines[..n + 1]) == Flatten(lines[..n]) + lines[n];
    var text := Flatten(lines);
    assert text[..Start(lines, n + 1)] == Flatten(lines[..n]) + lines[n];
    assert text[Start(lines, n)..Start(lines, n + 1)] == text[..Start(lines, n + 1)][Start(lines, n)..];
  }

  /** The outcome of a scan of a line, for the text the line stands in at `off`. */
  function Shifted(r: LineResult, off: nat): LineResult {
    if r.Found? then Found(off + r.pos) else r
  }

  lemma {:induction false} PlainLine(text: string, off: nat, line: string, i: nat, stack: seq<char>)
    requires i <= |line| && off + |line| <= |text| && text[off..off + |line|] == line
    ensures
      var r := Plain(line, i, stack);
      Plain(text, off + i, stack) == if r.Open? then Plain(text, off + |line|, r.stack) else Shifted(r, off)
    decreases |line| - i
  {
    if i < |line| {
      assert line[i] == text[off + i];
      var step := PlainStep(line[i], i, stack);
      PlainOn(line, i, stack, step);
      PlainOn(text, off + i, stack, Shifted(step, off));
      if step.Open? {
        PlainLine(text, off, line, i + 1, step.stack);
      }
    }
  }

  lemma {:induction false} PlainBackLine(text: string, off: nat, line: string, end: nat, stack: seq<char>)
    requires end <= |line| && off + |line| <= |text| && text[off..off + |line|] == line
    ensures
      var r := PlainBack(line, end, stack);
      PlainBack(text, off + end, stack) == if r.Open? then PlainBack(text, off, r.stack) else Shifted(r, off)
    decreases end
  {
    if end > 0 {
      assert line[end - 1] == text[off + end - 1];
      var step := PlainBackStep(line[end - 1], end - 1, stack);
      PlainBackOn(line, end, stack, step);
      PlainBackOn(text, off + end, stack, Shifted(step, off));
      if step.Open? {
        PlainBackLine(text, off, line, end - 1, step.stack);
      }
    }
  }

  /** A search over the lines reports the position just past what a scan of the text found. */
  ghost predicate EndsAt(lines: seq<string>, r: Option<(nat, nat)>, scanned: LineResult) {
    match scanned
    case Found(e) =>
      r.Some? && r.value.0 < |lines| && 0 < r.value.1 <= |lines[r.value.0]| && Start(lines, r.value.0) + r.value.1 == e
    case _ => r.None?
  }

  ghost predicate StartsAt(lines: seq<string>, r: Option<(nat, nat)>, scanned: LineResult) {
    match scanned
    case Found(a) =>
      r.Some? && r.value.0 < |lines| && r.value.1 < |lines[r.value.0]| && Start(lines, r.value.0) + r.value.1 == a
    case _ => r.None?
  }

  /** What a matcher finds on a line says what a plain scan of the text finds. */
  lemma {:induction false} LineScanned(lines: seq<string>, n: nat, i: nat, stack: seq<char>)
    requires n < |lines| && i <= |lines[n]| && Grounded(stack, '<')
    ensures Start(lines, n) + i <= Start(lines, n + 1) <= |Flatten(lines)|
    ensures
      var scan, text := Scan(lines[n], i, stack), Flatten(lines);
      && (scan.Open? ==> Grounded(scan.stack, '<'))
      && (scan.Found? ==> 0 < scan.pos <= |lines[n]|)
      && Plain(text, Start(lines, n) + i, Erase(stack)) ==
           if scan.Open? then Plain(text, Start(lines, n + 1), Erase(scan.stack)) else Shifted(scan, Start(lines, n))
  {
    LineAt(lines, n);
    ScanErased(lines[n], i, stack);
    PlainLine(Flatten(lines), Start(lines, n), lines[n], i, Erase(stack));
  }

  lemma {:induction false} EndsHere(lines: seq<string>, n: nat, scan: LineResult)
    requires n < |lines| && !scan.Open? && (scan.Found? ==> 0 < scan.pos <= |lines[n]|)
    ensures EndsAt(lines, CloseFrom(lines, n, scan), Shifted(scan, Start(lines, n)))
  {
  }

  lemma {:induction false} StartsHere(lines: seq<string>, n: nat, scan: LineResult)
    requires n < |lines| && !scan.Open? && (scan.Found? ==> scan.pos < |lines[n]|)
    ensures StartsAt(lines, OpenFrom(lines, n, scan), Shifted(scan, Start(lines, n)))
  {
  }

  lemma {:induction false} CloseFromIsPlain(lines: seq<string>, n: nat, i: nat, stack: seq<char>)
    requires n < |lines| && i <= |lines[n]| && Grounded(stack, '<')
    ensures Start(lines, n) + i <= |Flatten(lines)|
    ensures EndsAt(lines, CloseFrom(lines, n, Scan(lines[n], i, stack)), Plain(Flatten(lines), Start(lines, n) + i, Erase(stack)))
    decreases |lines| - n
  {
    var scan := Scan(lines[n], i, stack);
    LineScanned(lines, n, i, stack);
    if !scan.Open? {
      EndsHere(lines, n, scan);
    } else {
      if n + 1 < |lines| {
        CloseFromIsPlain(lines, n + 1, 0, scan.stack);
        CloseFromOn(lines, n, scan.stack);
      } else {
        assert lines[..n + 1] == lines;
      }
    }
  }

  lemma {:induction false} LineScannedBack(lines: seq<string>, n: nat, end: nat, stack: seq<char>)
    requires n < |lines| && end <= |lines[n]| && Grounded(stack, '>')
    ensures Start(lines, n) + end <= Start(lines, n + 1) <= |Flatten(lines)|
    ensures
      var scan, text := ScanBack(lines[n], end, stack), Flatten(lines);
      && (scan.Open? ==> Grounded(scan.stack, '>'))
      && (scan.Found? ==> scan.pos < |lines[n]|)
      && PlainBack(text, Start(lines, n) + end, Erase(stack)) ==
           if scan.Open? then PlainBack(text, Start(lines, n), Erase(scan.stack)) else Shifted(scan, Start(lines, n))
  {
    LineAt(lines, n);
    ScanBackErased(lines[n], end, stack);
    PlainBackLine(Flatten(lines), Start(lines, n), lines[n], end, Erase(stack));
  }

  lemma {:induction false} OpenFromIsPlain(lines: seq<string>, n: nat, end: nat, stack: seq<char>)
    requires n < |lines| && end <= |lines[n]| && Grounded(stack, '>')
    ensures Start(lines, n) + end <= |Flatten(lines)|
    ensures StartsAt(lines, OpenFrom(lines, n, ScanBack(lines[n], end, stack)),
                     PlainBack(Flatten(lines), Start(lines, n) + end, Erase(stack)))
    decreases n
  {
    var scan := ScanBack(lines[n], end, stack);
    LineScannedBack(lines, n, end, stack);
    if !scan.Open? {
      StartsHere(lines, n, scan);
    } else {
      if n > 0 {
        LineAt(lines, n - 1);
        OpenFromIsPlain(lines, n - 1, |lines[n - 1]|, scan.stack);
        OpenFromOn(lines, n, scan.stack);
      } else {
        assert lines[..0] == [];
      }
    }
  }

  /**
   From a bracket, `CloseExpression` finds what one plain bracket scan over the concatenated lines finds,
   and fails when it fails, whatever angle brackets lie between.
   */
  lemma {:induction false} CloseIsPlainScan(lines: seq<string>, n: nat, pos: nat)
    requires n < |lines| && pos < |lines[n]| && IsOpener(lines[n][pos])
    ensures
      var a := Start(lines, n) + pos;
      && a < |Flatten(lines)| && Flatten(lines)[a] == lines[n][pos]
      && EndsAt(lines, Close(lines, n, pos), Plain(Flatten(lines), a + 1, [lines[n][pos]]))
  {
    var c := lines[n][pos];
    LineAt(lines, n);
    assert Flatten(lines)[Start(lines, n) + pos] == lines[n][pos];
    assert [] + [c] == [c] && Erase([c]) == [c];
    CloseFromIsPlain(lines, n, pos + 1, [c]);
  }

  lemma {:induction false} ReverseCloseIsPlainScan(lines: seq<string>, n: nat, pos: nat)
    requires n < |lines| && pos < |lines[n]| && IsCloser(lines[n][pos])
    ensures
      var b := Start(lines, n) + pos;
      && b < |Flatten(lines)| && Flatten(lines)[b] == lines[n][pos]
      && StartsAt(lines, ReverseClose(lines, n, pos), PlainBack(Flatten(lines), b, [lines[n][pos]]))
  {
    var c := lines[n][pos];
    LineAt(lines, n);
    assert Flatten(lines)[Start(lines, n) + pos] == lines[n][pos];
    assert [] + [c] == [c] && Erase([c]) == [c];
    OpenFromIsPlain(lines, n, pos, [c]);
  }

  // ---------------------------------------------------------------- balanced text

  /** A derivation in the grammar of balanced text: ordinary characters and nested pairs. */
  datatype Derivation = Empty | Ordinary(rest: Derivation) | Nested(inner: Derivation, rest: Derivation) {
    function Size(): nat {
      match this
      case Empty => 0
      case Ordinary(rest) => 1 + rest.Size()
      case Nested(inner, rest) => 2 + inner.Size() + rest.Size()
    }

    /** The text from position `i` on, as long as this derivation, is what it derives. */
    predicate Derives(text: string, i: nat) {
      && i + Size() <= |text|
      && match this
         case Empty => true
         case Ordinary(rest) => !IsBracket(text[i]) && rest.Derives(text, i + 1)
         case Nested(inner, rest) =>
           && Closes(text[i], text[i + 1 + inner.Size()])
           && inner.Derives(text, i + 1)
           && rest.Derives(text, i + 2 + inner.Size())
    }

    function Then(d: Derivation): (r: Derivation)
      ensures r.Size() == Size() + d.Size()
    {
      match this
      case Empty => d
      case Ordinary(rest) => Ordinary(rest.Then(d))
      case Nested(inner, rest) => Nested(inner, rest.Then(d))
    }
  }

  ghost predicate Balanced(text: string, i: nat, j: nat) {
    exists d: Derivation :: d.Size() == j - i && d.Derives(text, i)
  }

  lemma {:induction false} NestedDerives(text: string, i: nat, inner: Derivation, rest: Derivation)
    requires inner.Derives(text, i + 1) && rest.Derives(text, i + 2 + inner.Size())
    requires Closes(text[i], text[i + 1 + inner.Size()])
    ensures Nested(inner, rest).Derives(text, i)
    ensures Nested(inner, rest).Size() == 2 + inner.Size() + rest.Size()
  {
  }

  lemma {:induction false} OrdinaryDerives(text: string, i: nat, rest: Derivation)
    requires i < |text| && !IsBracket(text[i]) && rest.Derives(text, i + 1)
    ensures Ordinary(rest).Derives(text, i) && Ordinary(rest).Size() == 1 + rest.Size()
  {
  }

  lemma {:induction false} DerivesThen(text: string, i: nat, d: Derivation, d': Derivation)
    requires d.Derives(text, i) && d'.Derives(text, i + d.Size())
    ensures d.Then(d').Derives(text, i)
    decreases d
  {
    match d
    case Empty =>
    case Ordinary(rest) =>
      DerivesThen(text, i + 1, rest, d');
      OrdinaryDerives(text, i, rest.Then(d'));
    case Nested(inner, rest) =>
      DerivesThen(text, i + 2 + inner.Size(), rest, d');
      NestedDerives(text, i, inner, rest.Then(d'));
  }

  lemma {:induction false} BalancedNothing(text: string, i: nat)
    requires i <= |text|
    ensures Balanced(text, i, i)
  {
    assert Empty.Size() == i - i && Empty.Derives(text, i);
  }

  /** An ordinary character after balanced text. */
  lemma {:induction false} BalancedThenOrdinary(text: string, i: nat, j: nat)
    requires i <= j < |text| && Balanced(text, i, j) && !IsBracket(text[j])
    ensures Balanced(text, i, j + 1)
  {
    var d: Derivation :| d.Size() == j - i && d.Derives(text, i);
    DerivesThen(text, i, d, Ordinary(Empty));
    assert d.Then(Ordinary(Empty)).Size() == j + 1 - i;
  }

  /** A pair of brackets, at `j` and `k`, after balanced text. */
  lemma {:induction false} BalancedThenNested(text: string, i: nat, j: nat, k: nat)
    requires i <= j < k < |text| && Balanced(text, i, j) && Balanced(text, j + 1, k) && Closes(text[j], text[k])
    ensures Balanced(text, i, k + 1)
  {
    var d: Derivation :| d.Size() == j - i && d.Derives(text, i);
    var inner: Derivation :| inner.Size() == k - (j + 1) && inner.Derives(text, j + 1);
    DerivesThen(text, i, d, Nested(inner, Empty));
    assert d.Then(Nested(inner, Empty)).Size() == k + 1 - i;
  }

  lemma {:induction false} OrdinaryThenBalanced(text: string, i: nat, j: nat)
    requires i < j <= |text| && !IsBracket(text[i]) && Balanced(text, i + 1, j)
    ensures Balanced(text, i, j)
  {
    var d: Derivation :| d.Size() == j - (i + 1) && d.Derives(text, i + 1);
    assert Ordinary(d).Size() == j - i && Ordinary(d).Derives(text, i);
  }

  lemma {:induction false} NestedThenBalanced(text: string, i: nat, k: nat, j: nat)
    requires i < k < j <= |text| && Closes(text[i], text[k]) && Balanced(text, i + 1, k) && Balanced(text, k + 1, j)
    ensures Balanced(text, i, j)
  {
    var inner: Derivation :| inner.Size() == k - (i + 1) && inner.Derives(text, i + 1);
    var rest: Derivation :| rest.Size() == j - (k + 1) && rest.Derives(text, k + 1);
    NestedDerives(text, i, inner, rest);
  }

  lemma {:induction false} PlainNests(text: string, i: nat, k: nat, stack: seq<char>)
    requires i < |text| && k < |text| && Closes(text[i], text[k]) && stack != []
    ensures Plain(text, i, stack) == Plain(text, i + 1, stack + [text[i]])
    ensures Plain(text, k, stack + [text[i]]) == Plain(text, k + 1, stack)
  {
    PlainOn(text, i, stack, Open(stack + [text[i]]));
    assert Init(stack + [text[i]]) == stack;
    PlainOn(text, k, stack + [text[i]], Open(stack));
  }

  lemma {:induction false} PlainBackNests(text: string, i: nat, k: nat, stack: seq<char>)
    requires i < |text| && k < |text| && Closes(text[i], text[k]) && stack != []
    ensures PlainBack(text, k + 1, stack) == PlainBack(text, k, stack + [text[k]])
    ensures PlainBack(text, i + 1, stack + [text[k]]) == PlainBack(text, i, stack)
  {
    PlainBackOn(text, k + 1, stack, Open(stack + [text[k]]));
    assert Init(stack + [text[k]]) == stack;
    PlainBackOn(text, i + 1, stack + [text[k]], Open(stack));
  }

  /** Balanced text leaves the forward scan's stack as it was. */
  lemma {:induction false} BalancedIsTransparent(text: string, i: nat, d: Derivation, stack: seq<char>)
    requires d.Derives(text, i) && stack != []
    ensures Plain(text, i, stack) == Plain(text, i + d.Size(), stack)
    decreases d
  {
    match d
    case Empty =>
    case Ordinary(rest) =>
      PlainOn(text, i, stack, Open(stack));
      BalancedIsTransparent(text, i + 1, rest, stack);
    case Nested(inner, rest) =>
      var k := i + 1 + inner.Size();
      PlainNests(text, i, k, stack);
      BalancedIsTransparent(text, i + 1, inner, stack + [text[i]]);
      BalancedIsTransparent(text, k + 1, rest, stack);
  }

  /** And the backward scan's. */
  lemma {:induction false} BalancedIsTransparentBack(text: string, i: nat, d: Derivation, stack: seq<char>)
    requires d.Derives(text, i) && stack != []
    ensures PlainBack(text, i + d.Size(), stack) == PlainBack(text, i, stack)
    decreases d
  {
    match d
    case Empty =>
    case Ordinary(rest) =>
      PlainBackOn(text, i + 1, stack, Open(stack));
      BalancedIsTransparentBack(text, i + 1, rest, stack);
    case Nested(inner, rest) =>
      var k := i + 1 + inner.Size();
      PlainBackNests(text, i, k, stack);
      BalancedIsTransparentBack(text, k + 1, rest, stack);
      BalancedIsTransparentBack(text, i + 1, inner, stack + [text[k]]);
  }

  /** One step of a forward scan that empties its stack. */
  lemma {:induction false} FoundStep(text: string, i: nat, stack: seq<char>, open: char, e: nat)
    requires i <= |text| && Plain(text, i, stack + [open]) == Found(e)
    ensures i < |text|
    ensures
      var c := text[i];
      if IsOpener(c) then Plain(text, i + 1, (stack + [open]) + [c]) == Found(e)
      else if !IsCloser(c) then Plain(text, i + 1, stack + [open]) == Found(e)
      else Closes(open, c) && if stack == [] then e == i + 1 else Plain(text, i + 1, stack) == Found(e)
  {
    assert Init(stack + [open]) == stack;
  }

  /** A scan that empties its stack first closes the top entry, over balanced text. */
  lemma {:induction false} FoundOverBalanced(text: string, i: nat, stack: seq<char>, open: char, e: nat)
      returns (j: nat)
    requires i <= |text| && Plain(text, i, stack + [open]) == Found(e)
    ensures i <= j < |text| && Closes(open, text[j]) && Balanced(text, i, j)
    ensures if stack == [] then e == j + 1 else Plain(text, j + 1, stack) == Found(e)
    decreases |text| - i
  {
    FoundStep(text, i, stack, open, e);
    if IsOpener(text[i]) {
      var k := FoundOverBalanced(text, i + 1, stack + [open], text[i], e);
      j := FoundOverBalanced(text, k + 1, stack, open, e);
      NestedThenBalanced(text, i, k, j);
    } else if IsCloser(text[i]) {
      j := i;
      BalancedNothing(text, i);
    } else {
      j := FoundOverBalanced(text, i + 1, stack, open, e);
      OrdinaryThenBalanced(text, i, j);
    }
  }

  /** One step of a backward scan that empties its stack. */
  lemma {:induction false} FoundBackStep(text: string, end: nat, stack: seq<char>, close: char, a: nat)
    requires end <= |text| && PlainBack(text, end, stack + [close]) == Found(a)
    ensures end > 0
    ensures
      var c := text[end - 1];
      if IsCloser(c) then PlainBack(text, end - 1, (stack + [close]) + [c]) == Found(a)
      else if !IsOpener(c) then PlainBack(text, end - 1, stack + [close]) == Found(a)
      else Closes(c, close) && if stack == [] then a == end - 1 else PlainBack(text, end - 1, stack) == Found(a)
  {
    assert Init(stack + [close]) == stack;
  }

  lemma {:induction false} FoundBackOverBalanced(text: string, end: nat, stack: seq<char>, close: char, a: nat)
      returns (j: nat)
    requires end <= |text| && PlainBack(text, end, stack + [close]) == Found(a)
    ensures j < end && Closes(text[j], close) && Balanced(text, j + 1, end)
    ensures if stack == [] then a == j else PlainBack(text, j, stack) == Found(a)
    decreases end
  {
    FoundBackStep(text, end, stack, close, a);
    var c := text[end - 1];
    if IsCloser(c) {
      var k := FoundBackOverBalanced(text, end - 1, stack + [close], c, a);
      j := FoundBackOverBalanced(text, k, stack, close, a);
      BalancedThenNested(text, j + 1, k, end - 1);
    } else if IsOpener(c) {
      j := end - 1;
      BalancedNothing(text, end);
    } else {
      j := FoundBackOverBalanced(text, end - 1, stack, close, a);
      BalancedThenOrdinary(text, j + 1, end - 1);
    }
  }

  /** Positions `a` and `b` hold a bracket pair around balanced text. */
  ghost predicate Pair(text: string, a: nat, b: nat) {
    a < b < |text| && Closes(text[a], text[b]) && Balanced(text, a + 1, b)
  }

  lemma {:induction false} PairIsFound(text: string, a: nat, b: nat)
    requires Pair(text, a, b)
    ensures Plain(text, a + 1, [text[a]]) == Found(b + 1)
  {
    var d: Derivation :| d.Size() == b - (a + 1) && d.Derives(text, a + 1);
    BalancedIsTransparent(text, a + 1, d, [text[a]]);
  }

  lemma {:induction false} PairIsFoundBack(text: string, a: nat, b: nat)
    requires Pair(text, a, b)
    ensures PlainBack(text, b, [text[b]]) == Found(a)
  {
    var d: Derivation :| d.Size() == b - (a + 1) && d.Derives(text, a + 1);
    BalancedIsTransparentBack(text, a + 1, d, [text[b]]);
  }

  lemma {:induction false} FoundIsPair(text: string, a: nat, b: nat)
    requires a < |text| && Plain(text, a + 1, [text[a]]) == Found(b + 1)
    ensures Pair(text, a, b)
  {
    assert [] + [text[a]] == [text[a]];
    var j := FoundOverBalanced(text, a + 1, [], text[a], b + 1);
  }

  lemma {:induction false} PlainFindsPairs(text: string, a: nat, b: nat)
    requires a < |text| && IsOpener(text[a])
    ensures Plain(text, a + 1, [text[a]]) == Found(b + 1) <==> Pair(text, a, b)
  {
    if Plain(text, a + 1, [text[a]]) == Found(b + 1) {
      FoundIsPair(text, a, b);
    }
    if Pair(text, a, b) {
      PairIsFound(text, a, b);
    }
  }

  lemma {:induction false} PlainBackFindsPairs(text: string, a: nat, b: nat)
    requires b < |text| && IsCloser(text[b])
    ensures PlainBack(text, b, [text[b]]) == Found(a) <==> Pair(text, a, b)
  {
    assert [] + [text[b]] == [text[b]];
    if PlainBack(text, b, [text[b]]) == Found(a) {
      var j := FoundBackOverBalanced(text, b, [], text[b], a);
    }
    if Pair(text, a, b) {
      PairIsFoundBack(text, a, b);
    }
  }

  // ---------------------------------------------------------------- the two matchers are inverse

  lemma {:induction false} StartIsMonotone(lines: seq<string>, n: nat, m: nat)
    requires n <= m <= |lines|
    ensures Start(lines, n) <= Start(lines, m)
  {
    FlattenPrefix(lines[..m], n);
    assert lines[..m][..n] == lines[..n];
  }

  lemma {:induction false} PositionsAreUnique(lines: seq<string>, n: nat, i: nat, m: nat, j: nat)
    requires n < |lines| && i < |lines[n]| && m < |lines| && j < |lines[m]|
    requires Start(lines, n) + i == Start(lines, m) + j
    ensures n == m && i == j
  {
    LineAt(lines, n);
    LineAt(lines, m);
    if n < m {
      StartIsMonotone(lines, n + 1, m);
    } else if m < n {
      StartIsMonotone(lines, m + 1, n);
    }
  }

  /** `CloseExpression` from an opener reports exactly the positions that pair with it. */
  lemma {:induction false} CloseFindsPairs(lines: seq<string>, n: nat, pos: nat, m: nat, q: nat)
    requires n < |lines| && pos < |lines[n]| && IsOpener(lines[n][pos])
    requires m < |lines| && q < |lines[m]|
    ensures Close(lines, n, pos) == Some((m, q + 1))
       <==> Pair(Flatten(lines), Start(lines, n) + pos, Start(lines, m) + q)
  {
    CloseIsPlainScan(lines, n, pos);
    LineAt(lines, m);
    var r := Close(lines, n, pos);
    PlainFindsPairs(Flatten(lines), Start(lines, n) + pos, Start(lines, m) + q);
    if r.Some? && Start(lines, r.value.0) + r.value.1 == Start(lines, m) + q + 1 {
      PositionsAreUnique(lines, r.value.0, r.value.1 - 1, m, q);
    }
  }

  lemma {:induction false} ReverseCloseFindsPairs(lines: seq<string>, n: nat, pos: nat, m: nat, q: nat)
    requires n < |lines| && pos < |lines[n]|
    requires m < |lines| && q < |lines[m]| && IsCloser(lines[m][q])
    ensures ReverseClose(lines, m, q) == Some((n, pos))
       <==> Pair(Flatten(lines), Start(lines, n) + pos, Start(lines, m) + q)
  {
    ReverseCloseIsPlainScan(lines, m, q);
    LineAt(lines, n);
    var r := ReverseClose(lines, m, q);
    PlainBackFindsPairs(Flatten(lines), Start(lines, n) + pos, Start(lines, m) + q);
    if r.Some? && Start(lines, r.value.0) + r.value.1 == Start(lines, n) + pos {
      PositionsAreUnique(lines, r.value.0, r.value.1, n, pos);
    }
  }

  /** Forwards from an opener ends just past a closer exactly when backwards from that closer ends at the opener. */
  lemma {:induction false} MatchersAreInverse(lines: seq<string>, n: nat, pos: nat, m: nat, q: nat)
    requires n < |lines| && pos < |lines[n]| && IsOpener(lines[n][pos])
    requires m < |lines| && q < |lines[m]| && IsCloser(lines[m][q])
    ensures Close(lines, n, pos) == Some((m, q + 1)) <==> ReverseClose(lines, m, q) == Some((n, pos))
  {
    CloseFindsPairs(lines, n, pos, m, q);
    ReverseCloseFindsPairs(lines, n, pos, m, q);
  }

  /** A search that starts at a bracket ends at a bracket of its own kind. */
  lemma {:induction false} CloseEndsPastItsCloser(lines: seq<string>, n: nat, pos: nat)
    requires n < |lines| && pos < |lines[n]| && IsOpener(lines[n][pos])
    requires Close(lines, n, pos).Some?
    ensures
      var (m, e) := Close(lines, n, pos).value;
      m < |lines| && 0 < e <= |lines[m]| && Closes(lines[n][pos], lines[m][e - 1])
  {
    CloseIsPlainScan(lines, n, pos);
    var (m, e) := Close(lines, n, pos).value;
    CloseFindsPairs(lines, n, pos, m, e - 1);
    LineAt(lines, m);
    assert Flatten(lines)[Start(lines, m) + (e - 1)] == lines[m][e - 1];
  }

  lemma {:induction false} ReverseCloseEndsAtItsOpener(lines: seq<string>, m: nat, q: nat)
    requires m < |lines| && q < |lines[m]| && IsCloser(lines[m][q])
    requires ReverseClose(lines, m, q).Some?
    ensures
      var (n, pos) := ReverseClose(lines, m, q).value;
      n < |lines| && pos < |lines[n]| && Closes(lines[n][pos], lines[m][q])
  {
    ReverseCloseIsPlainScan(lines, m, q);
    var (n, pos) := ReverseClose(lines, m, q).value;
    ReverseCloseFindsPairs(lines, n, pos, m, q);
    LineAt(lines, n);
    assert Flatten(lines)[Start(lines, n) + pos] == lines[n][pos];
  }

  /** A search starts at an opener or a closer, or at an angle bracket that is no part of `<<` or `<=`, and nowhere else. */
  lemma {:induction false} OthersAreRefused(lines: seq<string>, n: nat, pos: nat)
    requires n < |lines| && pos < |lines[n]|
    ensures
      var c := lines[n][pos];
      && (c !in {'(', '[', '{', '<'} ==> Close(lines, n, pos) == None)
      && (c == '<' && pos + 1 < |lines[n]| && lines[n][pos + 1] in {'<', '='} ==> Close(lines, n, pos) == None)
      && (c !in {')', ']', '}', '>'} ==> ReverseClose(lines, n, pos) == None)
  {
  }

  // ---------------------------------------------------------------- the third matcher

  function Closer(open: char): (close: char)
    requires IsOpener(open)
    ensures Closes(open, close)
  {
    if open == '(' then ')' else if open == '[' then ']' else '}'
  }

  predicate AllOpeners(stack: seq<char>) {
    forall i | 0 <= i < |stack| :: IsOpener(stack[i])
  }

  function Closers(stack: seq<char>): (r: seq<char>)
    requires AllOpeners(stack)
    ensures |r| == |stack| && forall i | 0 <= i < |r| :: r[i] == Closer(stack[i])
  {
    seq(|stack|, i requires 0 <= i < |stack| => Closer(stack[i]))
  }

  lemma {:induction false} ClosersPop(open: seq<char>)
    requires open != [] && AllOpeners(open)
    ensures AllOpeners(Init(open)) && Init(Closers(open)) == Closers(Init(open))
    ensures Last(Closers(open)) == Closer(Last(open))
  {
  }

  lemma {:induction false} ClosersPush(open: seq<char>, c: char)
    requires AllOpeners(open) && IsOpener(c)
    ensures AllOpeners(open + [c]) && Closers(open + [c]) == Closers(open) + [Closer(c)]
  {
  }

  /** From a bracket, the forward matcher on one line is the plain scan. */
  lemma {:induction false} ScanIsPlain(text: string, a: nat)
    requires a < |text| && IsOpener(text[a])
    ensures SameOutcome(Scan(text, a, []), Plain(text, a + 1, [text[a]]), '<')
  {
    assert [] + [text[a]] == [text[a]] && Erase([text[a]]) == [text[a]];
    ScanErased(text, a + 1, [text[a]]);
  }

  /** One character of the plain scan, told by the closer it expects. */
  lemma {:induction false} PlainExpects(text: string, i: nat, open: seq<char>)
    requires i < |text| && open != [] && AllOpeners(open)
    ensures
      var c, scan := text[i], Plain(text, i, open);
      if c == Closer(Last(open)) then scan == if Init(open) == [] then Found(i + 1) else Plain(text, i + 1, Init(open))
      else if IsCloser(c) then scan == Unclosed
      else scan == Plain(text, i + 1, if IsOpener(c) then open + [c] else open)
  {
  }

  /**
   The text from `start`, just past an opener, to its match. It works on a stack of the closers it expects,
   and finds what a plain scan finds.
   */
  method TextUntilMatch(text: string, start: nat) returns (r: Option<string>)
    requires 0 < start <= |text| && IsOpener(text[start - 1])
    ensures
      var outcome := Plain(text, start, [text[start - 1]]);
      if outcome.Found? then start < outcome.pos <= |text| && r == Some(text[start..outcome.pos - 1]) else r == None
  {
    ghost var open := [text[start - 1]];
    var expected := [Closer(text[start - 1])];
    var position := start;
    while expected != [] && position < |text|
      invariant start <= position <= |text|
      invariant AllOpeners(open) && expected == Closers(open)
      invariant Plain(text, start, [text[start - 1]]) == if open == [] then Found(position) else Plain(text, position, open)
      decreases |text| - position
    {
      var c := text[position];
      PlainExpects(text, position, open);
      ClosersPop(open);
      if c == Last(expected) {
        expected := Init(expected);
        open := Init(open);
      } else if IsCloser(c) {
        return None;
      } else if IsOpener(c) {
        ClosersPush(open, c);
        expected := expected + [Closer(c)];
        open := open + [c];
      }
      position := position + 1;
    }
    if expected != [] {
      return None;
    }
    return Some(text[start..position - 1]);
  }

  /**
   The text between a bracket and its match. It knows nothing of angle brackets, yet it finds a text exactly when the
   line matcher finds an end: the text in between. `matchEnd` is where the start pattern's match ends, if it matched.
   */
  method GetTextInside(text: string, matchEnd: Option<nat>) returns (r: Option<string>)
    requires matchEnd.Some? ==> 0 < matchEnd.value <= |text| && IsOpener(text[matchEnd.value - 1])
    ensures matchEnd.None? ==> r == None
    ensures matchEnd.Some? ==>
      match Scan(text, matchEnd.value - 1, [])
      case Found(e) => matchEnd.value < e <= |text| && r == Some(text[matchEnd.value..e - 1])
      case _ => r == None
  {
    if matchEnd.None? {
      return None;
    }
    ScanIsPlain(text, matchEnd.value - 1);
    r := TextUntilMatch(text, matchEnd.value);
  }
}
