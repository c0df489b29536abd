/**
 The linter's nesting state across conditional compilation: whole nesting stacks are saved at `#if`
 and restored at `#else` and `#endif`, so that one branch of every conditional counts.
 */
module Preprocessor {
  import Brackets

  // ---------------------------------------------------------------- directives

  datatype Directive = If | Else | Endif | NoDirective

  function SkipSpaces(s: string): string {
    if s != "" && Brackets.IsSpace(s[0]) then SkipSpaces(s[1..]) else s
  }

  function FirstWord(s: string): string {
    if s != "" && Brackets.IsWordChar(s[0]) then [s[0]] + FirstWord(s[1..]) else ""
  }

  /** The word a line opens with, if it opens with `#`. */
  function Opening(line: string): string {
    var s := SkipSpaces(line);
    if s == "" || s[0] != '#' then "" else FirstWord(SkipSpaces(s[1..]))
  }

  /** The directive a line opens with. */
  function DirectiveOf(line: string): Directive {
    var word := Opening(line);
    if word == "if" || word == "ifdef" || word == "ifndef" then If
    else if word == "else" || word == "elif" then Else
    else if word == "endif" then Endif
    else NoDirective
  }

  predicate AllWordChars(s: string) {
    forall i | 0 <= i < |s| :: Brackets.IsWordChar(s[i])
  }

  /** The text is `word` and then its end or a character that does not belong to a word. */
  predicate StartsWithWord(text: string, word: string) {
    word <= text && (|text| > |word| ==> !Brackets.IsWordChar(text[|word|]))
  }

  /** `^\s*#\s*word\b` matches: the line is spaces, `#`, spaces and the word. */
  ghost predicate Opens(line: string, word: string) {
    exists a: string, b: string, c: string ::
      line == a + (['#'] + (b + c)) && Brackets.AllSpaces(a) && Brackets.AllSpaces(b) && StartsWithWord(c, word)
  }

  /** Skipping spaces splits a text at its first other character, the only place where it can be split so. */
  lemma {:induction false} SkipsTheSpaces(spaces: string, rest: string)
    requires Brackets.AllSpaces(spaces) && (rest == "" || !Brackets.IsSpace(rest[0]))
    ensures SkipSpaces(spaces + rest) == rest
    decreases spaces
  {
    if spaces == "" {
      assert spaces + rest == rest;
    } else {
      assert (spaces + rest)[1..] == spaces[1..] + rest;
      SkipsTheSpaces(spaces[1..], rest);
    }
  }

  lemma {:induction false} SpacesAreSkipped(s: string) returns (spaces: string)
    ensures s == spaces + SkipSpaces(s) && Brackets.AllSpaces(spaces)
    ensures SkipSpaces(s) == "" || !Brackets.IsSpace(SkipSpaces(s)[0])
    decreases s
  {
    if s != "" && Brackets.IsSpace(s[0]) {
      var rest := SpacesAreSkipped(s[1..]);
      spaces := [s[0]] + rest;
      assert s == [s[0]] + s[1..];
    } else {
      spaces := "";
    }
  }

  lemma {:induction false} FirstWordIsTaken(s: string, word: string)
    requires AllWordChars(word)
    ensures FirstWord(s) == word <==> StartsWithWord(s, word)
    decreases s
  {
    if s != "" && Brackets.IsWordChar(s[0]) {
      assert s == [s[0]] + s[1..];
      if word != "" && word[0] == s[0] {
        FirstWordIsTaken(s[1..], word[1..]);
        assert word == [word[0]] + word[1..];
        assert word <= s <==> word[1..] <= s[1..];
      }
    }
  }

  lemma {:induction false} OpensExactly(line: string, word: string)
    requires word != "" && AllWordChars(word) && !Brackets.IsSpace(word[0])
    ensures Opening(line) == word <==> Opens(line, word)
  {
    var s := SkipSpaces(line);
    if Opening(line) == word {
      var a := SpacesAreSkipped(line);
      var b := SpacesAreSkipped(s[1..]);
      var c := SkipSpaces(s[1..]);
      FirstWordIsTaken(c, word);
      assert s == ['#'] + s[1..];
      assert line == a + (['#'] + (b + c));
    }
    if Opens(line, word) {
      var a: string, b: string, c: string :|
        line == a + (['#'] + (b + c)) && Brackets.AllSpaces(a) && Brackets.AllSpaces(b) && StartsWithWord(c, word);
      SkipsTheSpaces(a, ['#'] + (b + c));
      assert (['#'] + (b + c))[1..] == b + c;
      SkipsTheSpaces(b, c);
      FirstWordIsTaken(c, word);
    }
  }

  /** Which directive a line is, told by its text. */
  lemma {:induction false} DirectiveExactly(line: string)
    ensures DirectiveOf(line) == If <==> Opens(line, "if") || Opens(line, "ifdef") || Opens(line, "ifndef")
    ensures DirectiveOf(line) == Else <==> Opens(line, "else") || Opens(line, "elif")
    ensures DirectiveOf(line) == Endif <==> Opens(line, "endif")
  {
    OpensExactly(line, "if");
    OpensExactly(line, "ifdef");
    OpensExactly(line, "ifndef");
    OpensExactly(line, "else");
    OpensExactly(line, "elif");
    OpensExactly(line, "endif");
  }

  // ---------------------------------------------------------------- the nesting state

  /** The nesting stacks saved for one open `#if`. */
  datatype PreprocessorInfo<+B> = PreprocessorInfo(stackBeforeIf: seq<B>, stackBeforeElse: seq<B>, seenElse: bool)

  datatype State<+B> = State(stack: seq<B>, ppStack: seq<PreprocessorInfo<B>>)

  /** A source line: its text, and what the rest of `Update` does to the nesting stack on it. */
  datatype Line<!B> = Line(text: string, update: seq<B> -> seq<B>)

  function UpdatedPreprocessor<B>(s: State<B>, line: string): State<B> {
    var top := |s.ppStack| - 1;
    match DirectiveOf(line)
    case NoDirective => s
    case If => s.(ppStack := s.ppStack + [PreprocessorInfo(s.stack, [], false)])
    case Else =>
      if s.ppStack == [] then s
      else
        var info := s.ppStack[top];
        State(
          info.stackBeforeIf,
          if info.seenElse then s.ppStack
          else s.ppStack[top := info.(seenElse := true, stackBeforeElse := s.stack)])
    case Endif =>
      if s.ppStack == [] then s
      else
        var info := s.ppStack[top];
        State(if info.seenElse then info.stackBeforeElse else s.stack, s.ppStack[..top])
  }

  function Updated<B>(s: State<B>, line: Line<B>): State<B> {
    var s := UpdatedPreprocessor(s, line.text);
    s.(stack := line.update(s.stack))
  }

  class NestingState<B> {
    var stack: seq<B>
    var ppStack: seq<PreprocessorInfo<B>>

    ghost function View(): State<B>
      reads this
    {
      State(stack, ppStack)
    }

    constructor ()
      ensures View() == State([], [])
    {
      stack, ppStack := [], [];
    }

    method UpdatePreprocessor(line: string)
      modifies this
      ensures View() == UpdatedPreprocessor(old(View()), line)
    {
      var directive := DirectiveOf(line);
      if directive == If {
        ppStack := ppStack + [PreprocessorInfo(stack, [], false)];
      } else if directive == Else {
        if ppStack != [] {
          var top := |ppStack| - 1;
          if !ppStack[top].seenElse {
            ppStack := ppStack[top := ppStack[top].(seenElse := true, stackBeforeElse := stack)];
          }
          stack := ppStack[top].stackBeforeIf;
        }
      } else if directive == Endif {
        if ppStack != [] {
          var top := |ppStack| - 1;
          if ppStack[top].seenElse {
            stack := ppStack[top].stackBeforeElse;
          }
          ppStack := ppStack[..top];
        }
      }
    }

    method Update(line: Line<B>)
      modifies this
      ensures View() == Updated(old(View()), line)
    {
      UpdatePreprocessor(line.text);
      stack := line.update(stack);
    }
  }

  function Run<B>(s: State<B>, lines: seq<Line<B>>): State<B>
    decreases lines
  {
    if lines == [] then s else Run(Updated(s, lines[0]), lines[1..])
  }

  // ---------------------------------------------------------------- deleting the branches that do not count

  /** For each `#if` open at a line, whether its `#else` or `#elif` has been seen. */
  type Branches = seq<bool>

  function Enter(branches: Branches, line: string): Branches {
    match DirectiveOf(line)
    case NoDirective => branches
    case If => branches + [false]
    case Else => if branches == [] then branches else branches[|branches| - 1 := true]
    case Endif => if branches == [] then branches else branches[..|branches| - 1]
  }

  /** A line is dropped if it lies in an `#else` or `#elif` branch, that directive included. */
  predicate Dropped(branches: Branches) {
    true in branches
  }

  function Strip<B>(lines: seq<Line<B>>, branches: Branches): seq<Line<B>> {
    if lines == [] then []
    else
      var branches := Enter(branches, lines[0].text);
      (if Dropped(branches) then [] else [lines[0]]) + Strip(lines[1..], branches)
  }

  /** The nesting stack after every line that is kept. */
  function KeptStacks<B>(s: State<B>, lines: seq<Line<B>>, branches: Branches): seq<seq<B>>
    decreases lines
  {
    if lines == [] then []
    else
      var s := Updated(s, lines[0]);
      var branches := Enter(branches, lines[0].text);
      (if Dropped(branches) then [] else [s.stack]) + KeptStacks(s, lines[1..], branches)
  }

  /** The nesting stack after every line. */
  function Stacks<B>(s: State<B>, lines: seq<Line<B>>): seq<seq<B>>
    decreases lines
  {
    if lines == [] then []
    else [Updated(s, lines[0]).stack] + Stacks(Updated(s, lines[0]), lines[1..])
  }

  /** `branches` tells which saved stacks have seen their `#else`. */
  predicate Tracks<B>(s: State<B>, branches: Branches) {
    |branches| == |s.ppStack| && forall i | 0 <= i < |branches| :: branches[i] == s.ppStack[i].seenElse
  }

  /** Inside a dropped branch, `k` is the outermost `#if` whose `#else` has been seen. */
  predicate Outermost(branches: Branches, k: nat) {
    k < |branches| && branches[k] && true !in branches[..k]
  }

  /** `s` ran over all lines and `t` over those kept; in a dropped branch, `t` waits at the saved stack. */
  ghost predicate Related<B>(s: State<B>, t: State<B>, branches: Branches) {
    && Tracks(s, branches)
    && if !Dropped(branches) then s == t
       else exists k :: Outermost(branches, k) && WaitsAt(s, t, k)
  }

  ghost predicate WaitsAt<B>(s: State<B>, t: State<B>, k: nat)
    requires k < |s.ppStack|
  {
    && |t.ppStack| == k + 1 && t.ppStack[..k] == s.ppStack[..k]
    && !t.ppStack[k].seenElse
    && t.stack == s.ppStack[k].stackBeforeElse
  }

  lemma EnterTracks<B>(s: State<B>, branches: Branches, line: Line<B>)
    requires Tracks(s, branches)
    ensures Tracks(Updated(s, line), Enter(branches, line.text))
  {
  }

  /** Both runs agree outside dropped branches: one line keeps them related. */
  lemma StepFromKept<B>(s: State<B>, branches: Branches, line: Line<B>)
    requires Tracks(s, branches) && !Dropped(branches)
    ensures
      var branches' := Enter(branches, line.text);
      Related(Updated(s, line), if Dropped(branches') then s else Updated(s, line), branches')
  {
    EnterTracks(s, branches, line);
    var s', branches' := Updated(s, line), Enter(branches, line.text);
    if Dropped(branches') {
      var k := |branches| - 1;
      assert branches'[..k] == branches[..k];
      assert Outermost(branches', k);
      assert WaitsAt(s', s, k);
    }
  }

  lemma StepFromDropped<B>(s: State<B>, t: State<B>, branches: Branches, k: nat, line: Line<B>)
    requires Tracks(s, branches) && Outermost(branches, k) && WaitsAt(s, t, k)
    ensures
      var branches' := Enter(branches, line.text);
      Related(Updated(s, line), if Dropped(branches') then t else Updated(t, line), branches')
  {
    EnterTracks(s, branches, line);
    var s', branches' := Updated(s, line), Enter(branches, line.text);
    if DirectiveOf(line.text) == Endif && k == |branches| - 1 {
      assert branches' == branches[..k] && !Dropped(branches');
    } else {
      assert branches'[..k] == branches[..k] && branches'[k];
      assert s'.ppStack[..k] == s.ppStack[..k];
      assert Outermost(branches', k) && WaitsAt(s', t, k);
    }
  }

  lemma StepRelated<B>(s: State<B>, t: State<B>, branches: Branches, line: Line<B>)
    requires Related(s, t, branches)
    ensures
      var branches' := Enter(branches, line.text);
      Related(Updated(s, line), if Dropped(branches') then t else Updated(t, line), branches')
  {
    if Dropped(branches) {
      var k :| Outermost(branches, k) && WaitsAt(s, t, k);
      StepFromDropped(s, t, branches, k, line);
    } else {
      StepFromKept(s, branches, line);
    }
  }

  /** From related states, the full run and the stripped one show the same stacks on the kept lines. */
  lemma {:induction false} RelatedRuns<B>(s: State<B>, t: State<B>, lines: seq<Line<B>>, branches: Branches)
    requires Related(s, t, branches)
    ensures KeptStacks(s, lines, branches) == Stacks(t, Strip(lines, branches))
    decreases lines
  {
    if lines != [] {
      StepRelated(s, t, branches, lines[0]);
      var branches' := Enter(branches, lines[0].text);
      if Dropped(branches') {
        RelatedRuns(Updated(s, lines[0]), t, lines[1..], branches');
        assert Strip(lines, branches) == Strip(lines[1..], branches');
      } else {
        RelatedRuns(Updated(s, lines[0]), Updated(t, lines[0]), lines[1..], branches');
        var rest := Strip(lines[1..], branches');
        assert ([lines[0]] + rest)[1..] == rest;
      }
    }
  }

  /**
   Deleting every `#else` and `#elif` branch of a file, well nested or not, leaves the
   nesting stack after every other line as it was, whatever each line does to the stack.
   */
  lemma ElseBranchesDoNotCount<B>(lines: seq<Line<B>>)
    ensures KeptStacks(State([], []), lines, []) == Stacks(State([], []), Strip(lines, []))
  {
    RelatedRuns(State([], []), State([], []), lines, []);
  }

  // ---------------------------------------------------------------- well-nested conditionals

  /** Every `#else` and `#endif` has its `#if`, and every `#if` its `#endif`; `depth` are open at the start. */
  predicate WellNested<B>(lines: seq<Line<B>>, depth: nat) {
    if lines == [] then depth == 0
    else match DirectiveOf(lines[0].text)
      case NoDirective => WellNested(lines[1..], depth)
      case If => WellNested(lines[1..], depth + 1)
      case Else => depth > 0 && WellNested(lines[1..], depth)
      case Endif => depth > 0 && WellNested(lines[1..], depth - 1)
  }

  lemma {:induction false} WellNestedRestores<B>(s: State<B>, lines: seq<Line<B>>, depth: nat)
    requires depth <= |s.ppStack| && WellNested(lines, depth)
    ensures Run(s, lines).ppStack == s.ppStack[..|s.ppStack| - depth]
    decreases lines
  {
    if lines == [] {
      assert s.ppStack[..|s.ppStack|] == s.ppStack;
    } else {
      var s' := Updated(s, lines[0]);
      var depth' := match DirectiveOf(lines[0].text)
        case If => depth + 1
        case Endif => depth - 1
        case _ => depth;
      WellNestedRestores(s', lines[1..], depth');
      assert s'.ppStack[..|s'.ppStack| - depth'] == s.ppStack[..|s.ppStack| - depth];
    }
  }

  /** Well-nested lines leave the saved stacks of the conditionals around them untouched. */
  lemma PreprocessorStackReturns<B>(s: State<B>, lines: seq<Line<B>>)
    requires WellNested(lines, 0)
    ensures Run(s, lines).ppStack == s.ppStack
  {
    WellNestedRestores(s, lines, 0);
  }

  // ---------------------------------------------------------------- what each branch starts from

  /** Lines between an `#if` and its `#endif`, with any number of its own `#else` and `#elif` lines among them. */
  predicate Within<B>(lines: seq<Line<B>>, depth: nat) {
    if lines == [] then depth == 0
    else match DirectiveOf(lines[0].text)
      case NoDirective => Within(lines[1..], depth)
      case If => Within(lines[1..], depth + 1)
      case Else => Within(lines[1..], depth)
      case Endif => depth > 0 && Within(lines[1..], depth - 1)
  }

  lemma {:induction false} WellNestedIsWithin<B>(lines: seq<Line<B>>, depth: nat)
    requires WellNested(lines, depth)
    ensures Within(lines, depth)
    decreases lines
  {
    if lines != [] {
      var depth' := match DirectiveOf(lines[0].text)
        case If => depth + 1
        case Endif => depth - 1
        case _ => depth;
      WellNestedIsWithin(lines[1..], depth');
    }
  }

  lemma {:induction false} KeepsSavedStack<B>(s: State<B>, lines: seq<Line<B>>, k: nat, depth: nat)
    requires |s.ppStack| == k + 1 + depth && Within(lines, depth)
    ensures
      var s' := Run(s, lines);
      && |s'.ppStack| == k + 1 && s'.ppStack[..k] == s.ppStack[..k]
      && s'.ppStack[k].stackBeforeIf == s.ppStack[k].stackBeforeIf
      && (s.ppStack[k].seenElse ==> s'.ppStack[k] == s.ppStack[k])
    decreases lines
  {
    if lines != [] {
      var s' := Updated(s, lines[0]);
      var depth' := match DirectiveOf(lines[0].text)
        case If => depth + 1
        case Endif => depth - 1
        case _ => depth;
      assert s'.ppStack[..k] == s.ppStack[..k];
      KeepsSavedStack(s', lines[1..], k, depth');
    }
  }

  lemma {:induction false} RunAppend<B>(s: State<B>, a: seq<Line<B>>, b: seq<Line<B>>)
    ensures Run(s, a + b) == Run(Run(s, a), b)
    decreases a
  {
    if a == [] {
      assert a + b == b;
    } else {
      assert (a + b)[0] == a[0] && (a + b)[1..] == a[1..] + b;
      RunAppend(Updated(s, a[0]), a[1..], b);
    }
  }

  lemma {:induction false} RunAround<B>(s: State<B>, first: Line<B>, body: seq<Line<B>>, last: Line<B>)
    ensures Run(s, [first] + body + [last]) == Updated(Run(Updated(s, first), body), last)
  {
    RunAppend(s, [first] + body, [last]);
    RunAppend(s, [first], body);
    assert [first][1..] == [] && [last][1..] == [];
    assert Run(s, [first]) == Run(Updated(s, first), []);
    var s' := Run(s, [first] + body);
    assert Run(s', [last]) == Run(Updated(s', last), []);
  }

  /** Every `#else` and `#elif` of a conditional starts from the stack before its `#if`. */
  lemma {:induction false} BranchStartsAfresh<B>(s: State<B>, open: Line<B>, body: seq<Line<B>>, next: Line<B>)
    requires DirectiveOf(open.text) == If && Within(body, 0) && DirectiveOf(next.text) == Else
    ensures Run(s, [open] + body + [next]).stack == next.update(s.stack)
  {
    RunAround(s, open, body, next);
    KeepsSavedStack(Updated(s, open), body, |s.ppStack|, 0);
  }

  /** After `#endif` the stack is the one at the end of the first branch, whatever the others did. */
  lemma {:induction false} FirstBranchCounts<B>(
      s: State<B>, open: Line<B>, first: seq<Line<B>>, others: seq<Line<B>>, close: Line<B>)
    requires DirectiveOf(open.text) == If && WellNested(first, 0) && DirectiveOf(close.text) == Endif
    requires Within(others, 0) && (others == [] || DirectiveOf(others[0].text) == Else)
    ensures
      var s' := Run(s, [open] + (first + others) + [close]);
      s'.stack == close.update(Run(s, [open] + first).stack) && s'.ppStack == s.ppStack
  {
    var k, inside := |s.ppStack|, Updated(s, open);
    RunAround(s, open, first + others, close);
    RunAppend(inside, first, others);
    RunAppend(s, [open], first);
    assert [open][1..] == [];
    assert Run(s, [open]) == Run(inside, []);
    var mid := Run(inside, first);
    PreprocessorStackReturns(inside, first);
    assert mid.ppStack == s.ppStack + [PreprocessorInfo(s.stack, [], false)];
    if others == [] {
      assert mid.ppStack[..k] == s.ppStack;
    } else {
      var turned := Updated(mid, others[0]);
      assert turned.ppStack[k].seenElse && turned.ppStack[k].stackBeforeElse == mid.stack;
      assert turned.ppStack[..k] == s.ppStack;
      KeepsSavedStack(turned, others[1..], k, 0);
    }
  }

  /** A line that is no directive, and an `#else` or `#endif` without an `#if`, saves and restores nothing. */
  lemma {:induction false} OtherLinesSaveNothing<B>(s: State<B>, line: Line<B>)
    requires DirectiveOf(line.text) == NoDirective || (s.ppStack == [] && DirectiveOf(line.text) != If)
    ensures Updated(s, line) == State(line.update(s.stack), s.ppStack)
  {
  }
}
