/**
 The linter's bracket matchers. Both work line by line on a carried stack that mixes
 brackets with tentative angle brackets, which may turn out to be operators.
 */
module Brackets {
  import opened Wrappers

  predicate IsOpener(c: char) { c == '(' || c == '[' || c == '{' }
  predicate IsCloser(c: char) { c == ')' || c == ']' || c == '}' }
  predicate IsBracket(c: char) { IsOpener(c) || IsCloser(c) }

  predicate Closes(open: char, close: char) {
    || (open == '(' && close == ')')
    || (open == '[' && close == ']')
    || (open == '{' && close == '}')
  }

  function Last(s: seq<char>): char
    requires s != []
  {
    s[|s| - 1]
  }

  function Init(s: seq<char>): seq<char>
    requires s != []
  {
    s[..|s| - 1]
  }

  // ---------------------------------------------------------------- the regular expressions

  predicate IsSpace(c: char) {
    c == ' ' || '\t' <= c <= '\r'
  }

  predicate IsWordChar(c: char) {
    'a' <= c <= 'z' || 'A' <= c <= 'Z' || '0' <= c <= '9' || c == '_'
  }

  predicate EndsWith(s: string, suffix: string) {
    suffix == "" || (s != "" && Last(s) == Last(suffix) && EndsWith(Init(s), Init(suffix)))
  }

  /** `\boperator\s*$` is found in the string. */
  predicate EndsWithOperator(s: string) {
    if s != "" && IsSpace(Last(s)) then EndsWithOperator(Init(s))
    else EndsWith(s, "operator") && (|s| <= 8 || !IsWordChar(s[|s| - 9]))
  }

  /** `\s>=\s` matches at the start of the string. */
  predicate StartsWithSpacedGreaterEqual(s: string) {
    |s| >= 4 && IsSpace(s[0]) && s[1] == '>' && s[2] == '=' && IsSpace(s[3])
  }

  predicate AllSpaces(s: string) {
    forall i | 0 <= i < |s| :: IsSpace(s[i])
  }

  /** The string is `a`, the whole word and the spaces `b`. */
  predicate IsWordThenSpaces(s: string, a: string, word: string, b: string) {
    s == a + (word + b) && AllSpaces(b) && (a == "" || !IsWordChar(Last(a)))
  }

  ghost predicate EndsInWord(s: string, word: string) {
    exists a: string, b: string :: IsWordThenSpaces(s, a, word, b)
  }

  lemma {:induction false} EndsWithExactly(s: string, suffix: string)
    ensures EndsWith(s, suffix) <==> |suffix| <= |s| && s[|s| - |suffix|..] == suffix
    decreases suffix
  {
    if suffix != "" && s != "" {
      EndsWithExactly(Init(s), Init(suffix));
      assert suffix == Init(suffix) + [Last(suffix)];
      if |suffix| <= |s| {
        assert s[|s| - |suffix|..] == Init(s)[|s| - |suffix|..] + [Last(s)];
      }
    }
  }

  lemma {:induction false} LastOf(a: string, word: string, b: string)
    requires word != ""
    ensures Last(a + (word + b)) == if b == "" then Last(word) else Last(b)
  {
  }

  lemma {:induction false} AfterASpace(t: string, c: char, word: string)
    requires IsSpace(c) && word != "" && !IsSpace(Last(word))
    ensures EndsInWord(t + [c], word) <==> EndsInWord(t, word)
  {
    var s := t + [c];
    if EndsInWord(t, word) {
      var a: string, b: string :| IsWordThenSpaces(t, a, word, b);
      assert s == a + (word + (b + [c]));
      assert IsWordThenSpaces(s, a, word, b + [c]);
    }
    if EndsInWord(s, word) {
      var a: string, b: string :| IsWordThenSpaces(s, a, word, b);
      LastOf(a, word, b);
      if b != "" {
        var rest := a + (word + Init(b));
        assert b == Init(b) + [Last(b)] && s == rest + [Last(b)];
        assert t == Init(s) && Init(rest + [Last(b)]) == rest;
        assert IsWordThenSpaces(t, a, word, Init(b));
      }
    }
  }

  lemma {:induction false} AtTheWord(s: string, word: string)
    requires (s == "" || !IsSpace(Last(s))) && word != ""
    ensures EndsInWord(s, word) <==> EndsWith(s, word) && (|s| <= |word| || !IsWordChar(s[|s| - |word| - 1]))
  {
    EndsWithExactly(s, word);
    if EndsWith(s, word) && (|s| <= |word| || !IsWordChar(s[|s| - |word| - 1])) {
      var a := s[..|s| - |word|];
      assert s == a + (word + "");
      assert IsWordThenSpaces(s, a, word, "");
    }
    if EndsInWord(s, word) {
      var a: string, b: string :| IsWordThenSpaces(s, a, word, b);
      LastOf(a, word, b);
      assert word + "" == word;
      if b == "" {
        assert s[|s| - |word|..] == word;
      }
    }
  }

  lemma {:induction false} EndsWithOperatorExactly(s: string)
    ensures EndsWithOperator(s) <==> EndsInWord(s, "operator")
    decreases s
  {
    if s != "" && IsSpace(Last(s)) {
      EndsWithOperatorExactly(Init(s));
      assert s == Init(s) + [Last(s)];
      AfterASpace(Init(s), Last(s), "operator");
    } else {
      AtTheWord(s, "operator");
    }
  }

  lemma OperatorEndsInNoBracket(s: string)
    requires EndsWithOperator(s)
    ensures s != "" && !IsBracket(Last(s))
  {
    if s != "" && !IsSpace(Last(s)) {
      assert Last(s) == 'r';
    }
  }

  // ---------------------------------------------------------------- matching forwards

  /** The outcome of scanning a line: the end found, a mismatch, or the stack to carry on with. */
  datatype LineResult = Found(pos: nat) | Unclosed | Open(stack: seq<char>)

  function PopAll(stack: seq<char>, c: char): seq<char> {
    if stack != [] && Last(stack) == c then PopAll(Init(stack), c) else stack
  }

  /** Drops the top of the stack; an emptied stack ends the search with the given outcome. */
  function Popped(stack: seq<char>, emptied: LineResult): LineResult
    requires stack != []
  {
    if Init(stack) == [] then emptied else Open(Init(stack))
  }

  /** What a character does to the forward matcher's stack. */
  datatype Role = Opening | Closing | Less | SecondLess | Greater | Semicolon | NoRole

  function ForwardRole(line: string, i: nat): Role
    requires i < |line|
  {
    var c := line[i];
    if IsOpener(c) then Opening
    else if c == '<' then
      if i > 0 && line[i - 1] == '<' then SecondLess
      else if i > 0 && EndsWithOperator(line[..i]) then NoRole
      else Less
    else if IsCloser(c) then Closing
    else if c == '>' then
      if i > 0 && (line[i - 1] == '-' || EndsWithOperator(line[..i - 1])) then NoRole else Greater
    else if c == ';' then Semicolon
    else NoRole
  }

  function Forward(role: Role, c: char, i: nat, stack: seq<char>): LineResult {
    match role
    case Opening => Open(stack + [c])
    case Less => Open(stack + ['<'])
    case SecondLess => if stack != [] && Last(stack) == '<' then Popped(stack, Unclosed) else Open(stack)
    case Closing =>
      var stack := PopAll(stack, '<');
      if stack == [] || !Closes(Last(stack), c) then Unclosed else Popped(stack, Found(i + 1))
    case Greater => if stack != [] && Last(stack) == '<' then Popped(stack, Found(i + 1)) else Open(stack)
    case Semicolon => if PopAll(stack, '<') == [] then Unclosed else Open(PopAll(stack, '<'))
    case NoRole => Open(stack)
  }

  function ForwardStep(line: string, i: nat, stack: seq<char>): LineResult
    requires i < |line|
  {
    Forward(ForwardRole(line, i), line[i], i, stack)
  }

  function Scan(line: string, i: nat, stack: seq<char>): LineResult
    requires i <= |line|
    decreases |line| - i
  {
    if i == |line| then Open(stack)
    else
      match ForwardStep(line, i, stack)
      case Open(stack') => Scan(line, i + 1, stack')
      case result => result
  }

  method PopTentative(stack: seq<char>, c: char) returns (r: seq<char>)
    ensures r == PopAll(stack, c)
  {
    r := stack;
    while r != [] && Last(r) == c
      invariant PopAll(r, c) == PopAll(stack, c)
      decreases |r|
    {
      r := Init(r);
    }
  }

  method FindEndOfExpressionInLine(line: string, startpos: nat, stack0: seq<char>) returns (r: LineResult)
    requires startpos <= |line|
    ensures r == Scan(line, startpos, stack0)
  {
    var stack := stack0;
    for i := startpos to |line|
      invariant Scan(line, i, stack) == Scan(line, startpos, stack0)
    {
      var c := line[i];
      if IsOpener(c) {
        stack := stack + [c];
      } else if c == '<' {
        if i > 0 && line[i - 1] == '<' {
          if stack != [] && Last(stack) == '<' {
            stack := Init(stack);
            if stack == [] {
              return Unclosed;
            }
          }
        } else if i > 0 && EndsWithOperator(line[..i]) {
          continue;
        } else {
          stack := stack + ['<'];
        }
      } else if IsCloser(c) {
        stack := PopTentative(stack, '<');
        if stack == [] {
          return Unclosed;
        }
        if Closes(Last(stack), c) {
          stack := Init(stack);
          if stack == [] {
            return Found(i + 1);
          }
        } else {
          return Unclosed;
        }
      } else if c == '>' {
        if i > 0 && (line[i - 1] == '-' || EndsWithOperator(line[..i - 1])) {
          continue;
        }
        if stack != [] && Last(stack) == '<' {
          stack := Init(stack);
          if stack == [] {
            return Found(i + 1);
          }
        }
      } else if c == ';' {
        stack := PopTentative(stack, '<');
        if stack == [] {
          return Unclosed;
        }
      }
    }
    return Open(stack);
  }

  /** Goes on to the following lines for as long as a stack is carried. */
  function CloseFrom(lines: seq<string>, n: nat, scanned: LineResult): Option<(nat, nat)>
    requires n < |lines|
    decreases |lines| - n
  {
    match scanned
    case Found(pos) => Some((n, pos))
    case Unclosed => None
    case Open(stack) =>
      if stack == [] || n == |lines| - 1 then None
      else CloseFrom(lines, n + 1, Scan(lines[n + 1], 0, stack))
  }

  lemma {:induction false} CloseFromOn(lines: seq<string>, n: nat, stack: seq<char>)
    requires n + 1 < |lines| && stack != []
    ensures CloseFrom(lines, n, Open(stack)) == CloseFrom(lines, n + 1, Scan(lines[n + 1], 0, stack))
  {
  }

  predicate StartsExpression(line: string, pos: nat)
    requires pos < |line|
  {
    && (IsOpener(line[pos]) || line[pos] == '<')
    && !(line[pos] == '<' && pos + 1 < |line| && (line[pos + 1] == '<' || line[pos + 1] == '='))
  }

  function Close(lines: seq<string>, n: nat, pos: nat): Option<(nat, nat)>
    requires n < |lines| && pos < |lines[n]|
  {
    if StartsExpression(lines[n], pos) then CloseFrom(lines, n, Scan(lines[n], pos, [])) else None
  }

  method CloseExpression(lines: seq<string>, n: nat, pos: nat) returns (r: Option<(nat, nat)>)
    requires n < |lines| && pos < |lines[n]|
    ensures r == Close(lines, n, pos)
  {
    var line := lines[n];
    if !StartsExpression(line, pos) {
      return None;
    }
    var scanned := FindEndOfExpressionInLine(line, pos, []);
    if scanned.Found? {
      return Some((n, scanned.pos));
    }
    var linenum := n;
    while scanned.Open? && scanned.stack != [] && linenum < |lines| - 1
      invariant linenum < |lines| && !scanned.Found?
      invariant CloseFrom(lines, linenum, scanned) == Close(lines, n, pos)
      decreases |lines| - linenum
    {
      CloseFromOn(lines, linenum, scanned.stack);
      linenum := linenum + 1;
      scanned := FindEndOfExpressionInLine(lines[linenum], 0, scanned.stack);
      if scanned.Found? {
        return Some((linenum, scanned.pos));
      }
    }
    return None;
  }

  // ---------------------------------------------------------------- matching backwards

  /** The angle bracket at position `i` belongs to an operator that starts one character earlier. */
  predicate SkipsPrevious(line: string, i: nat)
    requires i < |line|
  {
    i > 0 &&
    if line[i] == '>' then
      line[i - 1] == '-' || StartsWithSpacedGreaterEqual(line[i - 1..]) || EndsWithOperator(line[..i])
    else line[i] == '<' && line[i - 1] == '<'
  }

  function BackwardRole(line: string, i: nat): Role
    requires i < |line|
  {
    var c := line[i];
    if IsCloser(c) then Closing
    else if SkipsPrevious(line, i) then NoRole
    else if c == '>' then Greater
    else if c == '<' then Less
    else if IsOpener(c) then Opening
    else if c == ';' then Semicolon
    else NoRole
  }

  function Backward(role: Role, c: char, i: nat, stack: seq<char>): LineResult {
    match role
    case Closing => Open(stack + [c])
    case Greater => Open(stack + ['>'])
    case Less => if stack != [] && Last(stack) == '>' then Popped(stack, Found(i)) else Open(stack)
    case Opening =>
      var stack := PopAll(stack, '>');
      if stack == [] || !Closes(c, Last(stack)) then Unclosed else Popped(stack, Found(i))
    case Semicolon => if PopAll(stack, '>') == [] then Unclosed else Open(PopAll(stack, '>'))
    case SecondLess => Open(stack)
    case NoRole => Open(stack)
  }

  function BackwardStep(line: string, i: nat, stack: seq<char>): LineResult
    requires i < |line|
  {
    Backward(BackwardRole(line, i), line[i], i, stack)
  }

  /** Where the backward scan goes on from position `end`. */
  function Before(line: string, end: nat): (before: nat)
    requires 0 < end <= |line|
    ensures before < end
  {
    if SkipsPrevious(line, end - 1) then end - 2 else end - 1
  }

  /** Scans the characters before position `end`, last one first. */
  function ScanBack(line: string, end: nat, stack: seq<char>): LineResult
    requires end <= |line|
    decreases end
  {
    if end == 0 then Open(stack)
    else
      match BackwardStep(line, end - 1, stack)
      case Open(stack') => ScanBack(line, Before(line, end), stack')
      case result => result
  }

  method FindStartOfExpressionInLine(line: string, endpos: int, stack0: seq<char>) returns (r: LineResult)
    requires -1 <= endpos < |line|
    ensures r == ScanBack(line, endpos + 1, stack0)
  {
    var stack := stack0;
    var i := endpos;
    while i >= 0
      invariant -1 <= i < |line|
      invariant ScanBack(line, i + 1, stack) == ScanBack(line, endpos + 1, stack0)
      decreases i
    {
      var c := line[i];
      if IsCloser(c) {
        stack := stack + [c];
      } else if c == '>' {
        if i > 0 && (line[i - 1] == '-' || StartsWithSpacedGreaterEqual(line[i - 1..]) || EndsWithOperator(line[..i])) {
          i := i - 1;
        } else {
          stack := stack + ['>'];
        }
      } else if c == '<' {
        if i > 0 && line[i - 1] == '<' {
          i := i - 1;
        } else if stack != [] && Last(stack) == '>' {
          stack := Init(stack);
          if stack == [] {
            return Found(i);
          }
        }
      } else if IsOpener(c) {
        stack := PopTentative(stack, '>');
        if stack == [] {
          return Unclosed;
        }
        if Closes(c, Last(stack)) {
          stack := Init(stack);
          if stack == [] {
            return Found(i);
          }
        } else {
          return Unclosed;
        }
      } else if c == ';' {
        stack := PopTentative(stack, '>');
        if stack == [] {
          return Unclosed;
        }
      }
      i := i - 1;
    }
    return Open(stack);
  }

  function OpenFrom(lines: seq<string>, n: nat, scanned: LineResult): Option<(nat, nat)>
    requires n < |lines|
  {
    match scanned
    case Found(pos) => Some((n, pos))
    case Unclosed => None
    case Open(stack) =>
      if stack == [] || n == 0 then None
      else OpenFrom(lines, n - 1, ScanBack(lines[n - 1], |lines[n - 1]|, stack))
  }

  lemma {:induction false} OpenFromOn(lines: seq<string>, n: nat, stack: seq<char>)
    requires 0 < n < |lines| && stack != []
    ensures OpenFrom(lines, n, Open(stack)) == OpenFrom(lines, n - 1, ScanBack(lines[n - 1], |lines[n - 1]|, stack))
  {
  }

  function ReverseClose(lines: seq<string>, n: nat, pos: nat): Option<(nat, nat)>
    requires n < |lines| && pos < |lines[n]|
  {
    var c := lines[n][pos];
    if IsCloser(c) || c == '>' then OpenFrom(lines, n, ScanBack(lines[n], pos + 1, [])) else None
  }

  method ReverseCloseExpression(lines: seq<string>, n: nat, pos: nat) returns (r: Option<(nat, nat)>)
    requires n < |lines| && pos < |lines[n]|
    ensures r == ReverseClose(lines, n, pos)
  {
    var line := lines[n];
    if !IsCloser(line[pos]) && line[pos] != '>' {
      return None;
    }
    var scanned := FindStartOfExpressionInLine(line, pos, []);
    if scanned.Found? {
      return Some((n, scanned.pos));
    }
    var linenum := n;
    while scanned.Open? && scanned.stack != [] && linenum > 0
      invariant linenum < |lines| && !scanned.Found?
      invariant OpenFrom(lines, linenum, scanned) == ReverseClose(lines, n, pos)
      decreases linenum
    {
      OpenFromOn(lines, linenum, scanned.stack);
      linenum := linenum - 1;
      line := lines[linenum];
      scanned := FindStartOfExpressionInLine(line, |line| - 1, scanned.stack);
      if scanned.Found? {
        return Some((linenum, scanned.pos));
      }
    }
    return None;
  }
}
