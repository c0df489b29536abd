/**
 What a search from an angle bracket finds: angle brackets are counted, brackets are jumped over to their match, and
 anything that shows that the angle bracket was an operator ends the search.
 */
module AngleMatching {
  import opened Wrappers
  import opened Brackets
  import opened BracketMatching

  // ---------------------------------------------------------------- the roles of a whole text

  /** The part each character of the text plays in a forward search; it depends on its own line only. */
  function Roles(lines: seq<string>): (r: seq<Role>)
    ensures |r| == |Flatten(lines)|
  {
    if lines == [] then [] else Roles(lines[..|lines| - 1]) + LineRoles(lines[|lines| - 1])
  }

  function LineRoles(line: string): (r: seq<Role>)
    ensures |r| == |line|
  {
    seq(|line|, i requires 0 <= i < |line| => ForwardRole(line, i))
  }

  /** Brackets, and only they, open and close. */
  predicate WellRoled(text: string, roles: seq<Role>) {
    && |roles| == |text|
    && forall i | 0 <= i < |text| :: (roles[i] == Opening <==> IsOpener(text[i])) && (roles[i] == Closing <==> IsCloser(text[i]))
  }

  lemma {:induction false} RolesAreWell(lines: seq<string>)
    ensures WellRoled(Flatten(lines), Roles(lines))
    decreases lines
  {
    if lines != [] {
      var before, last := lines[..|lines| - 1], lines[|lines| - 1];
      RolesAreWell(before);
      forall i | 0 <= i < |last|
        ensures (LineRoles(last)[i] == Opening <==> IsOpener(last[i])) && (LineRoles(last)[i] == Closing <==> IsCloser(last[i]))
      {
        ForwardRoles(last, i);
      }
    }
  }

  // ---------------------------------------------------------------- the reference

  /**
   The end of a search with `n` angle brackets open: `>` closes one and the second `<` of `<<` takes one back, a bracket is
   jumped over to its match; a closer without its opener, a `;` or taking back the first angle bracket ends it in vain.
   */
  function Angles(text: string, roles: seq<Role>, i: nat, n: nat): Option<nat>
    requires |roles| == |text| && n > 0
    decreases |text| - i
  {
    if i >= |text| then None
    else match roles[i]
      case NoRole => Angles(text, roles, i + 1, n)
      case Less => Angles(text, roles, i + 1, n + 1)
      case Greater => if n == 1 then Some(i + 1) else Angles(text, roles, i + 1, n - 1)
      case SecondLess => if n == 1 then None else Angles(text, roles, i + 1, n - 1)
      case Opening =>
        var end := Plain(text, i + 1, [text[i]]);
        if end.Found? then Angles(text, roles, end.pos, n) else None
      case Closing => None
      case Semicolon => None
  }

  // ---------------------------------------------------------------- one sweep over the text

  function Sweep(text: string, roles: seq<Role>, i: nat, stack: seq<char>): (r: LineResult)
    requires i <= |text| == |roles|
    ensures r.Found? ==> i < r.pos <= |text|
    decreases |text| - i
  {
    if i == |text| then Open(stack)
    else
      match Forward(roles[i], text[i], i, stack)
      case Open(stack') => Sweep(text, roles, i + 1, stack')
      case Found(_) => Found(i + 1)
      case Unclosed => Unclosed
  }

  lemma {:induction false} ForwardFinds(role: Role, c: char, i: nat, stack: seq<char>)
    ensures Forward(role, c, i, stack).Found? ==> Forward(role, c, i, stack) == Found(i + 1)
    ensures stack != [] && Forward(role, c, i, stack).Open? ==> Forward(role, c, i, stack).stack != []
  {
  }

  lemma {:induction false} SweepOn(text: string, roles: seq<Role>, i: nat, stack: seq<char>, step: LineResult)
    requires i < |text| == |roles| && step == Forward(roles[i], text[i], i, stack)
    ensures Sweep(text, roles, i, stack) == if step.Open? then Sweep(text, roles, i + 1, step.stack) else step
  {
    ForwardFinds(roles[i], text[i], i, stack);
  }

  /** The line matcher sweeps its line; in a text that holds the line, it sweeps that part of the text. */
  lemma {:induction false} ScanSweeps(text: string, roles: seq<Role>, off: nat, line: string, i: nat, stack: seq<char>)
    requires i <= |line| && off + |line| <= |text| == |roles| && stack != []
    requires text[off..off + |line|] == line && roles[off..off + |line|] == LineRoles(line)
    ensures
      var r := Scan(line, i, stack);
      && (r.Open? ==> r.stack != []) && (r.Found? ==> 0 < r.pos <= |line|)
      && Sweep(text, roles, off + i, stack) == if r.Open? then Sweep(text, roles, off + |line|, r.stack) else Shifted(r, off)
    decreases |line| - i
  {
    if i < |line| {
      assert line[i] == text[off + i] && roles[off + i] == LineRoles(line)[i];
      var step := ForwardStep(line, i, stack);
      ForwardFinds(ForwardRole(line, i), line[i], i, stack);
      ScanOn(line, i, stack, step);
      ForwardShifts(ForwardRole(line, i), line[i], i, off, stack);
      SweepOn(text, roles, off + i, stack, Shifted(step, off));
      if step.Open? {
        ScanSweeps(text, roles, off, line, i + 1, step.stack);
      }
    }
  }

  lemma {:induction false} ForwardShifts(role: Role, c: char, i: nat, off: nat, stack: seq<char>)
    ensures Forward(role, c, off + i, stack) == Shifted(Forward(role, c, i, stack), off)
  {
  }

  lemma {:induction false} RolesPrefix(lines: seq<string>, k: nat)
    requires k <= |lines|
    ensures Roles(lines[..k]) <= Roles(lines)
    decreases |lines|
  {
    if k < |lines| {
      RolesPrefix(lines[..|lines| - 1], k);
      assert lines[..|lines| - 1][..k] == lines[..k];
    } else {
      assert lines[..k] == lines;
    }
  }

  lemma {:induction false} RolesAt(lines: seq<string>, n: nat)
    requires n < |lines|
    ensures Start(lines, n) + |lines[n]| <= |Flatten(lines)|
    ensures Roles(lines)[Start(lines, n)..Start(lines, n) + |lines[n]|] == LineRoles(lines[n])
  {
    LineAt(lines, n);
    RolesPrefix(lines, n + 1);
    assert lines[..n + 1][..n] == lines[..n];
    assert Roles(lines[..n + 1]) == Roles(lines[..n]) + LineRoles(lines[n]);
    var roles, end := Roles(lines), Start(lines, n) + |lines[n]|;
    assert roles[..end] == Roles(lines[..n]) + LineRoles(lines[n]);
    assert roles[Start(lines, n)..end] == roles[..end][Start(lines, n)..];
  }

  /** The search over the lines is one sweep over the text. */
  lemma {:induction false} CloseFromSweeps(lines: seq<string>, n: nat, i: nat, stack: seq<char>)
    requires n < |lines| && i <= |lines[n]| && stack != []
    ensures Start(lines, n) + i <= |Flatten(lines)|
    ensures EndsAt(lines, CloseFrom(lines, n, Scan(lines[n], i, stack)),
                   Sweep(Flatten(lines), Roles(lines), Start(lines, n) + i, stack))
    decreases |lines| - n
  {
    var scan := Scan(lines[n], i, stack);
    LineAt(lines, n);
    RolesAt(lines, n);
    ScanSweeps(Flatten(lines), Roles(lines), Start(lines, n), lines[n], i, stack);
    if !scan.Open? {
      EndsHere(lines, n, scan);
    } else if n + 1 < |lines| {
      CloseFromSweeps(lines, n + 1, 0, scan.stack);
      CloseFromOn(lines, n, scan.stack);
    } else {
      assert lines[..n + 1] == lines;
    }
  }

  // ---------------------------------------------------------------- brackets are jumped over

  lemma {:induction false} SweepErased(text: string, roles: seq<Role>, i: nat, stack: seq<char>)
    requires WellRoled(text, roles) && i <= |text| && Grounded(stack, '<')
    ensures SameOutcome(Sweep(text, roles, i, stack), Plain(text, i, Erase(stack)), '<')
    decreases |text| - i
  {
    if i < |text| {
      var step, plain := Forward(roles[i], text[i], i, stack), PlainStep(text[i], i, Erase(stack));
      ForwardErased(roles[i], text[i], i, stack);
      SweepOn(text, roles, i, stack, step);
      PlainOn(text, i, Erase(stack), plain);
      if step.Open? {
        SweepErased(text, roles, i + 1, step.stack);
      }
    }
  }

  lemma {:induction false} PopAllAbove(base: seq<char>, stack: seq<char>, angle: char)
    requires Grounded(stack, angle) && !IsBracket(angle)
    ensures PopAll(base + stack, angle) == base + PopAll(stack, angle) && PopAll(stack, angle) != []
    decreases stack
  {
    assert Last(base + stack) == Last(stack);
    if Last(stack) == angle {
      ErasePop(stack, angle);
      assert Init(base + stack) == base + Init(stack);
      PopAllAbove(base, Init(stack), angle);
    }
  }

  /** What a step on a stack becomes when it has another stack under it. */
  function Above(base: seq<char>, step: LineResult): LineResult {
    match step
    case Open(stack) => Open(base + stack)
    case Found(_) => Open(base)
    case Unclosed => Unclosed
  }

  lemma {:induction false} PoppedAbove(base: seq<char>, stack: seq<char>, emptied: LineResult)
    requires base != [] && stack != [] && emptied.Found?
    ensures Popped(base + stack, emptied) == Above(base, Popped(stack, emptied)) && Last(base + stack) == Last(stack)
  {
    assert Init(base + stack) == base + Init(stack);
    assert base + [] == base;
  }

  lemma {:induction false} PoppedAngleAbove(base: seq<char>, stack: seq<char>, angle: char, emptied: LineResult)
    requires base != [] && Grounded(stack, angle) && Last(stack) == angle && !IsBracket(angle)
    ensures Popped(base + stack, emptied) == Above(base, Popped(stack, emptied))
  {
    assert Init(base + stack) == base + Init(stack);
  }

  lemma {:induction false} ForwardAbove(role: Role, c: char, i: nat, base: seq<char>, stack: seq<char>)
    requires base != [] && Grounded(stack, '<')
    ensures Forward(role, c, i, base + stack) == Above(base, Forward(role, c, i, stack))
  {
    assert Last(base + stack) == Last(stack);
    PopAllAbove(base, stack, '<');
    if role == Opening || role == Less {
      var pushed := if role == Opening then c else '<';
      assert (base + stack) + [pushed] == base + (stack + [pushed]);
    } else if role == Closing {
      PoppedAbove(base, PopAll(stack, '<'), Found(i + 1));
    } else if (role == SecondLess || role == Greater) && Last(stack) == '<' {
      PoppedAngleAbove(base, stack, '<', if role == Greater then Found(i + 1) else Unclosed);
    }
  }

  /** A sweep from a bracket, with other entries under it, goes on with those from the bracket's match. */
  lemma {:induction false} SweepAbove(text: string, roles: seq<Role>, i: nat, base: seq<char>, stack: seq<char>)
    requires WellRoled(text, roles) && i <= |text| && base != [] && Grounded(stack, '<')
    ensures
      var r := Sweep(text, roles, i, stack);
      match r
      case Found(e) => Sweep(text, roles, i, base + stack) == Sweep(text, roles, e, base)
      case Open(stack') => Sweep(text, roles, i, base + stack) == Open(base + stack')
      case Unclosed => Sweep(text, roles, i, base + stack) == Unclosed
    decreases |text| - i
  {
    if i < |text| {
      var step := Forward(roles[i], text[i], i, stack);
      ForwardErased(roles[i], text[i], i, stack);
      ForwardAbove(roles[i], text[i], i, base, stack);
      ForwardFinds(roles[i], text[i], i, stack);
      SweepOn(text, roles, i, stack, step);
      SweepOn(text, roles, i, base + stack, Above(base, step));
      if step.Open? {
        SweepAbove(text, roles, i + 1, base, step.stack);
      }
    }
  }

  // ---------------------------------------------------------------- angle brackets are counted

  function AngleStack(n: nat): (s: seq<char>)
    ensures |s| == n && forall i | 0 <= i < n :: s[i] == '<'
  {
    seq(n, _ => '<')
  }

  lemma {:induction false} AllPopped(n: nat)
    ensures PopAll(AngleStack(n), '<') == []
    decreases n
  {
    if n > 0 {
      assert Init(AngleStack(n)) == AngleStack(n - 1);
      AllPopped(n - 1);
    }
  }

  /** What a step does to a stack of angle brackets. */
  lemma {:induction false} ForwardCounts(role: Role, c: char, i: nat, n: nat)
    requires n > 0 && role != Opening
    ensures Forward(role, c, i, AngleStack(n)) ==
      match role
      case NoRole => Open(AngleStack(n))
      case Less => Open(AngleStack(n + 1))
      case Greater => if n == 1 then Found(i + 1) else Open(AngleStack(n - 1))
      case SecondLess => if n == 1 then Unclosed else Open(AngleStack(n - 1))
      case _ => Unclosed
  {
    AllPopped(n);
    assert AngleStack(n) + ['<'] == AngleStack(n + 1);
    assert Init(AngleStack(n)) == AngleStack(n - 1);
  }

  /** The search from a bracket alone finds what plain matching finds. */
  lemma {:induction false} BracketAlone(text: string, roles: seq<Role>, i: nat, c: char)
    requires WellRoled(text, roles) && i <= |text| && IsBracket(c)
    ensures Grounded([c], '<')
    ensures
      var r, plain := Sweep(text, roles, i, [c]), Plain(text, i, [c]);
      r.Found? == plain.Found? && (r.Found? ==> r == plain)
  {
    assert [] + [c] == [c] && Erase([c]) == [c];
    SweepErased(text, roles, i, [c]);
  }

  lemma {:induction false} JumpsOver(text: string, roles: seq<Role>, i: nat, n: nat)
    requires WellRoled(text, roles) && i < |text| && roles[i] == Opening && n > 0
    ensures
      var end := Plain(text, i + 1, [text[i]]);
      if end.Found? then Sweep(text, roles, i, AngleStack(n)) == Sweep(text, roles, end.pos, AngleStack(n))
      else !Sweep(text, roles, i, AngleStack(n)).Found?
  {
    SweepOn(text, roles, i, AngleStack(n), Open(AngleStack(n) + [text[i]]));
    BracketAlone(text, roles, i + 1, text[i]);
    SweepAbove(text, roles, i + 1, AngleStack(n), [text[i]]);
  }

  lemma {:induction false} SweepCounts(text: string, roles: seq<Role>, i: nat, n: nat)
    requires WellRoled(text, roles) && i <= |text| && n > 0
    ensures
      var r := Sweep(text, roles, i, AngleStack(n));
      Angles(text, roles, i, n) == if r.Found? then Some(r.pos) else None
    decreases |text| - i
  {
    if i < |text| {
      if roles[i] == Opening {
        JumpsOver(text, roles, i, n);
        var end := Plain(text, i + 1, [text[i]]);
        if end.Found? {
          SweepCounts(text, roles, end.pos, n);
        }
      } else {
        var step := Forward(roles[i], text[i], i, AngleStack(n));
        ForwardCounts(roles[i], text[i], i, n);
        SweepOn(text, roles, i, AngleStack(n), step);
        if step.Open? {
          SweepCounts(text, roles, i + 1, |step.stack|);
        }
      }
    }
  }

  lemma {:induction false} LessIsPushed(line: string, pos: nat)
    requires pos < |line| && ForwardRole(line, pos) == Less
    ensures Scan(line, pos, []) == Scan(line, pos + 1, [] + ['<'])
  {
    ScanOn(line, pos, [], Open([] + ['<']));
  }

  lemma {:induction false} CloseSweeps(lines: seq<string>, n: nat, pos: nat)
    requires n < |lines| && pos < |lines[n]| && StartsExpression(lines[n], pos) && ForwardRole(lines[n], pos) == Less
    ensures Start(lines, n) + pos < |Flatten(lines)|
    ensures EndsAt(lines, Close(lines, n, pos), Sweep(Flatten(lines), Roles(lines), Start(lines, n) + pos + 1, AngleStack(1)))
  {
    assert [] + ['<'] == AngleStack(1);
    LessIsPushed(lines[n], pos);
    LineAt(lines, n);
    CloseFromSweeps(lines, n, pos + 1, AngleStack(1));
  }

  /**
   From an angle bracket that opens, `CloseExpression` reports the position just past the `>` at which the count of open
   angle brackets comes to nothing, brackets being jumped over to their match, and nothing if there is none.
   */
  lemma {:induction false} CloseCountsAngles(lines: seq<string>, n: nat, pos: nat)
    requires n < |lines| && pos < |lines[n]| && StartsExpression(lines[n], pos) && ForwardRole(lines[n], pos) == Less
    ensures
      var a := Start(lines, n) + pos;
      && a < |Flatten(lines)|
      && match Angles(Flatten(lines), Roles(lines), a + 1, 1)
         case Some(e) => EndsAt(lines, Close(lines, n, pos), Found(e))
         case None => Close(lines, n, pos) == None
  {
    CloseSweeps(lines, n, pos);
    RolesAreWell(lines);
    SweepCounts(Flatten(lines), Roles(lines), Start(lines, n) + pos + 1, 1);
  }

  // ---------------------------------------------------------------- backwards

  /** The part each character plays in a backward search, and whether the one before it is skipped with it. */
  type Skips = seq<(Role, bool)>

  function RolesBack(lines: seq<string>): (r: Skips)
    ensures |r| == |Flatten(lines)|
  {
    if lines == [] then [] else RolesBack(lines[..|lines| - 1]) + LineRolesBack(lines[|lines| - 1])
  }

  function LineRolesBack(line: string): (r: Skips)
    ensures |r| == |line|
  {
    seq(|line|, i requires 0 <= i < |line| => (BackwardRole(line, i), SkipsPrevious(line, i)))
  }

  predicate WellRoledBack(text: string, roles: Skips) {
    |roles| == |text| && forall i | 0 <= i < |text| :: RoledBack(text, roles, i)
  }

  predicate RoledBack(text: string, roles: Skips, i: nat)
    requires i < |text| == |roles|
  {
    && (roles[i].0 == Opening <==> IsOpener(text[i])) && (roles[i].0 == Closing <==> IsCloser(text[i]))
    && (roles[i].1 ==> i > 0 && !IsBracket(text[i]) && !IsBracket(text[i - 1]))
  }

  lemma {:induction false} LineIsRoledBack(line: string, i: nat)
    requires i < |line|
    ensures RoledBack(line, LineRolesBack(line), i)
  {
    BackwardRoles(line, i);
    if SkipsPrevious(line, i) {
      SkippedIsNoBracket(line, i);
    }
  }

  lemma {:induction false} RoledBackAfter(a: string, text: string, before: Skips, roles: Skips)
    requires WellRoledBack(a, before) && WellRoledBack(text, roles)
    ensures WellRoledBack(a + text, before + roles)
  {
    forall i | 0 <= i < |a + text|
      ensures RoledBack(a + text, before + roles, i)
    {
      if i < |a| {
        assert RoledBack(a, before, i);
      } else {
        assert RoledBack(text, roles, i - |a|);
      }
    }
  }

  lemma {:induction false} RolesBackAreWell(lines: seq<string>)
    ensures WellRoledBack(Flatten(lines), RolesBack(lines))
    decreases lines
  {
    if lines != [] {
      var before, last := lines[..|lines| - 1], lines[|lines| - 1];
      RolesBackAreWell(before);
      forall i | 0 <= i < |last|
        ensures RoledBack(last, LineRolesBack(last), i)
      {
        LineIsRoledBack(last, i);
      }
      RoledBackAfter(Flatten(before), last, RolesBack(before), LineRolesBack(last));
    }
  }

  /** Where a backward search goes on. */
  function Previous(roles: Skips, end: nat): (p: nat)
    requires 0 < end <= |roles|
    ensures p < end
  {
    if roles[end - 1].1 && end > 1 then end - 2 else end - 1
  }

  /** The start of a backward search with `n` angle brackets open, counted the other way round. */
  function AnglesBack(text: string, roles: Skips, end: nat, n: nat): Option<nat>
    requires end <= |roles| == |text| && n > 0
    decreases end
  {
    if end == 0 then None
    else match roles[end - 1].0
      case NoRole => AnglesBack(text, roles, Previous(roles, end), n)
      case SecondLess => AnglesBack(text, roles, Previous(roles, end), n)
      case Greater => AnglesBack(text, roles, Previous(roles, end), n + 1)
      case Less => if n == 1 then Some(end - 1) else AnglesBack(text, roles, Previous(roles, end), n - 1)
      case Closing =>
        var start := PlainBack(text, end - 1, [text[end - 1]]);
        if start.Found? then AnglesBack(text, roles, start.pos, n) else None
      case Opening => None
      case Semicolon => None
  }

  function SweepBack(text: string, roles: Skips, end: nat, stack: seq<char>): (r: LineResult)
    requires end <= |text| == |roles|
    ensures r.Found? ==> r.pos < end
    decreases end
  {
    if end == 0 then Open(stack)
    else
      match Backward(roles[end - 1].0, text[end - 1], end - 1, stack)
      case Open(stack') => SweepBack(text, roles, Previous(roles, end), stack')
      case Found(_) => Found(end - 1)
      case Unclosed => Unclosed
  }

  lemma {:induction false} BackwardFinds(role: Role, c: char, i: nat, stack: seq<char>)
    ensures Backward(role, c, i, stack).Found? ==> Backward(role, c, i, stack) == Found(i)
    ensures stack != [] && Backward(role, c, i, stack).Open? ==> Backward(role, c, i, stack).stack != []
  {
  }

  lemma {:induction false} SweepBackOn(text: string, roles: Skips, end: nat, stack: seq<char>, step: LineResult)
    requires 0 < end <= |text| == |roles| && step == Backward(roles[end - 1].0, text[end - 1], end - 1, stack)
    ensures SweepBack(text, roles, end, stack) ==
      if step.Open? then SweepBack(text, roles, Previous(roles, end), step.stack) else step
  {
    BackwardFinds(roles[end - 1].0, text[end - 1], end - 1, stack);
  }

  lemma {:induction false} BackwardShifts(role: Role, c: char, i: nat, off: nat, stack: seq<char>)
    ensures Backward(role, c, off + i, stack) == Shifted(Backward(role, c, i, stack), off)
  {
  }

  lemma {:induction false} LineRolesBackAt(line: string, end: nat)
    requires 0 < end <= |line|
    ensures LineRolesBack(line)[end - 1].0 == BackwardRole(line, end - 1)
    ensures Previous(LineRolesBack(line), end) == Before(line, end)
  {
  }

  /** The scan of a line is the sweep over that line alone. */
  lemma {:induction false} ScanBackIsSweep(line: string, end: nat, stack: seq<char>)
    requires end <= |line|
    ensures ScanBack(line, end, stack) == SweepBack(line, LineRolesBack(line), end, stack)
    decreases end
  {
    if end > 0 {
      var step := BackwardStep(line, end - 1, stack);
      LineRolesBackAt(line, end);
      ScanBackOn(line, end, stack, step);
      SweepBackOn(line, LineRolesBack(line), end, stack, step);
      if step.Open? {
        ScanBackIsSweep(line, Before(line, end), step.stack);
      }
    }
  }

  predicate Within(text: string, roles: Skips, off: nat, line: string, own: Skips) {
    && off + |line| <= |text| == |roles| && |own| == |line|
    && text[off..off + |line|] == line && roles[off..off + |line|] == own
    && (own != [] ==> !own[0].1)
  }

  lemma {:induction false} WithinAt(text: string, roles: Skips, off: nat, line: string, own: Skips, end: nat)
    requires Within(text, roles, off, line, own) && 0 < end <= |line|
    ensures text[off + end - 1] == line[end - 1] && roles[off + end - 1] == own[end - 1]
    ensures Previous(roles, off + end) == off + Previous(own, end)
  {
    assert line[end - 1] == text[off..off + |line|][end - 1] && own[end - 1] == roles[off..off + |line|][end - 1];
  }

  lemma {:induction false} StepWithin(text: string, roles: Skips, off: nat, line: string, own: Skips, end: nat, stack: seq<char>)
    requires Within(text, roles, off, line, own) && 0 < end <= |line|
    ensures
      var step := Backward(own[end - 1].0, line[end - 1], end - 1, stack);
      SweepBack(text, roles, off + end, stack)
        == if step.Open? then SweepBack(text, roles, off + Previous(own, end), step.stack) else Shifted(step, off)
  {
    WithinAt(text, roles, off, line, own, end);
    BackwardShifts(own[end - 1].0, line[end - 1], end - 1, off, stack);
    SweepBackOn(text, roles, off + end, stack, Shifted(Backward(own[end - 1].0, line[end - 1], end - 1, stack), off));
  }

  /** `swept` is what a sweep comes to that has gone through the line at `off` with the result `scan`. */
  predicate Swept(text: string, roles: Skips, off: nat, length: nat, scan: LineResult, swept: LineResult) {
    && off <= |text| == |roles| && (scan.Open? ==> scan.stack != []) && (scan.Found? ==> scan.pos < length)
    && swept == if scan.Open? then SweepBack(text, roles, off, scan.stack) else Shifted(scan, off)
  }

  /** The sweep over a text goes through a line as the sweep over the line alone does. */
  lemma {:induction false} SweepBackWithin(text: string, roles: Skips, off: nat, line: string, own: Skips, end: nat, stack: seq<char>)
    requires Within(text, roles, off, line, own) && end <= |line| && stack != []
    ensures Swept(text, roles, off, |line|, SweepBack(line, own, end, stack), SweepBack(text, roles, off + end, stack))
    decreases end
  {
    if end > 0 {
      var step := Backward(own[end - 1].0, line[end - 1], end - 1, stack);
      BackwardFinds(own[end - 1].0, line[end - 1], end - 1, stack);
      SweepBackOn(line, own, end, stack, step);
      StepWithin(text, roles, off, line, own, end, stack);
      if step.Open? {
        SweepBackWithin(text, roles, off, line, own, Previous(own, end), step.stack);
      }
    }
  }

  lemma {:induction false} RolesBackPrefix(lines: seq<string>, k: nat)
    requires k <= |lines|
    ensures RolesBack(lines[..k]) <= RolesBack(lines)
    decreases |lines|
  {
    if k < |lines| {
      RolesBackPrefix(lines[..|lines| - 1], k);
      assert lines[..|lines| - 1][..k] == lines[..k];
    } else {
      assert lines[..k] == lines;
    }
  }

  lemma {:induction false} RolesBackAt(lines: seq<string>, n: nat)
    requires n < |lines|
    ensures Start(lines, n) + |lines[n]| <= |Flatten(lines)|
    ensures RolesBack(lines)[Start(lines, n)..Start(lines, n) + |lines[n]|] == LineRolesBack(lines[n])
  {
    LineAt(lines, n);
    RolesBackPrefix(lines, n + 1);
    assert lines[..n + 1][..n] == lines[..n];
    assert RolesBack(lines[..n + 1]) == RolesBack(lines[..n]) + LineRolesBack(lines[n]);
    var roles, end := RolesBack(lines), Start(lines, n) + |lines[n]|;
    assert roles[..end] == RolesBack(lines[..n]) + LineRolesBack(lines[n]);
    assert roles[Start(lines, n)..end] == roles[..end][Start(lines, n)..];
  }

  lemma {:induction false} FirstSkipsNothing(line: string)
    ensures line != "" ==> !LineRolesBack(line)[0].1
  {
  }

  lemma {:induction false} LineIsWithin(lines: seq<string>, n: nat)
    requires n < |lines|
    ensures Within(Flatten(lines), RolesBack(lines), Start(lines, n), lines[n], LineRolesBack(lines[n]))
  {
    LineAt(lines, n);
    RolesBackAt(lines, n);
    FirstSkipsNothing(lines[n]);
  }

  lemma {:induction false} LineStarts(lines: seq<string>, n: nat)
    requires n < |lines|
    ensures Start(lines, n + 1) == Start(lines, n) + |lines[n]| <= |Flatten(lines)|
  {
    LineAt(lines, n);
  }

  /** The matcher of a line sweeps that part of the text. */
  lemma {:induction false} ScanBackSweeps(lines: seq<string>, n: nat, end: nat, stack: seq<char>)
    requires n < |lines| && end <= |lines[n]| && stack != []
    ensures Start(lines, n) + end <= |Flatten(lines)|
    ensures Swept(Flatten(lines), RolesBack(lines), Start(lines, n), |lines[n]|, ScanBack(lines[n], end, stack),
                  SweepBack(Flatten(lines), RolesBack(lines), Start(lines, n) + end, stack))
  {
    LineIsWithin(lines, n);
    ScanBackIsSweep(lines[n], end, stack);
    SweepBackWithin(Flatten(lines), RolesBack(lines), Start(lines, n), lines[n], LineRolesBack(lines[n]), end, stack);
  }

  lemma {:induction false} NothingBefore(lines: seq<string>, stack: seq<char>)
    requires lines != []
    ensures Start(lines, 0) == 0
    ensures StartsAt(lines, OpenFrom(lines, 0, Open(stack)), SweepBack(Flatten(lines), RolesBack(lines), 0, stack))
  {
    assert lines[..0] == [];
  }

  /** The search over the lines before goes on as the sweep over the text does. */
  lemma {:induction false} OpenFromSweeps(lines: seq<string>, n: nat, scan: LineResult, swept: LineResult)
    requires n < |lines| && Swept(Flatten(lines), RolesBack(lines), Start(lines, n), |lines[n]|, scan, swept)
    ensures StartsAt(lines, OpenFrom(lines, n, scan), swept)
    decreases n
  {
    if !scan.Open? {
      StartsHere(lines, n, scan);
    } else if n == 0 {
      NothingBefore(lines, scan.stack);
    } else {
      LineStarts(lines, n - 1);
      ScanBackSweeps(lines, n - 1, |lines[n - 1]|, scan.stack);
      OpenFromOn(lines, n, scan.stack);
      OpenFromSweeps(lines, n - 1, ScanBack(lines[n - 1], |lines[n - 1]|, scan.stack), swept);
    }
  }

  lemma {:induction false} PreviousIsPlain(text: string, roles: Skips, end: nat, stack: seq<char>)
    requires WellRoledBack(text, roles) && 0 < end <= |text|
    ensures PlainBack(text, end - 1, stack) == PlainBack(text, Previous(roles, end), stack)
  {
    var i := end - 1;
    assert RoledBack(text, roles, i);
    if roles[i].1 {
      PlainBackOn(text, i, stack, Open(stack));
    }
  }

  lemma {:induction false} SweepBackErased(text: string, roles: Skips, end: nat, stack: seq<char>)
    requires WellRoledBack(text, roles) && end <= |text| && Grounded(stack, '>')
    ensures SameOutcome(SweepBack(text, roles, end, stack), PlainBack(text, end, Erase(stack)), '>')
    decreases end
  {
    if end > 0 {
      var i := end - 1;
      var step, plain := Backward(roles[i].0, text[i], i, stack), PlainBackStep(text[i], i, Erase(stack));
      assert RoledBack(text, roles, i);
      BackwardErased(roles[i].0, text[i], i, stack);
      SweepBackOn(text, roles, end, stack, step);
      PlainBackOn(text, end, Erase(stack), plain);
      if step.Open? {
        PreviousIsPlain(text, roles, end, plain.stack);
        SweepBackErased(text, roles, Previous(roles, end), step.stack);
      }
    }
  }

  lemma {:induction false} BackwardAbove(role: Role, c: char, i: nat, base: seq<char>, stack: seq<char>)
    requires base != [] && Grounded(stack, '>')
    ensures Backward(role, c, i, base + stack) == Above(base, Backward(role, c, i, stack))
  {
    assert Last(base + stack) == Last(stack);
    PopAllAbove(base, stack, '>');
    if role == Closing || role == Greater {
      var pushed := if role == Closing then c else '>';
      assert (base + stack) + [pushed] == base + (stack + [pushed]);
    } else if role == Opening {
      PoppedAbove(base, PopAll(stack, '>'), Found(i));
    } else if role == Less && Last(stack) == '>' {
      PoppedAngleAbove(base, stack, '>', Found(i));
    }
  }

  lemma {:induction false} SweepBackAbove(text: string, roles: Skips, end: nat, base: seq<char>, stack: seq<char>)
    requires WellRoledBack(text, roles) && end <= |text|
    requires base != [] && Grounded(stack, '>')
    ensures
      var r := SweepBack(text, roles, end, stack);
      match r
      case Found(a) => SweepBack(text, roles, end, base + stack) == SweepBack(text, roles, a, base)
      case Open(stack') => SweepBack(text, roles, end, base + stack) == Open(base + stack')
      case Unclosed => SweepBack(text, roles, end, base + stack) == Unclosed
    decreases end
  {
    if end > 0 {
      var i := end - 1;
      var step := Backward(roles[i].0, text[i], i, stack);
      assert RoledBack(text, roles, i);
      BackwardErased(roles[i].0, text[i], i, stack);
      BackwardAbove(roles[i].0, text[i], i, base, stack);
      BackwardFinds(roles[i].0, text[i], i, stack);
      SweepBackOn(text, roles, end, stack, step);
      SweepBackOn(text, roles, end, base + stack, Above(base, step));
      if step.Open? {
        SweepBackAbove(text, roles, Previous(roles, end), base, step.stack);
      }
    }
  }

  function AngleStackBack(n: nat): (s: seq<char>)
    ensures |s| == n && forall i | 0 <= i < n :: s[i] == '>'
  {
    seq(n, _ => '>')
  }

  lemma {:induction false} AllPoppedBack(n: nat)
    ensures PopAll(AngleStackBack(n), '>') == []
    decreases n
  {
    if n > 0 {
      assert Init(AngleStackBack(n)) == AngleStackBack(n - 1);
      AllPoppedBack(n - 1);
    }
  }

  lemma {:induction false} BackwardCounts(role: Role, c: char, i: nat, n: nat)
    requires n > 0 && role != Closing
    ensures Backward(role, c, i, AngleStackBack(n)) ==
      match role
      case NoRole => Open(AngleStackBack(n))
      case SecondLess => Open(AngleStackBack(n))
      case Greater => Open(AngleStackBack(n + 1))
      case Less => if n == 1 then Found(i) else Open(AngleStackBack(n - 1))
      case _ => Unclosed
  {
    AllPoppedBack(n);
    assert AngleStackBack(n) + ['>'] == AngleStackBack(n + 1);
    assert Init(AngleStackBack(n)) == AngleStackBack(n - 1);
  }

  /** The search from a bracket alone finds what plain matching finds. */
  lemma {:induction false} BracketBackAlone(text: string, roles: Skips, end: nat, c: char)
    requires WellRoledBack(text, roles) && end <= |text| && IsBracket(c)
    ensures Grounded([c], '>')
    ensures
      var r, plain := SweepBack(text, roles, end, [c]), PlainBack(text, end, [c]);
      r.Found? == plain.Found? && (r.Found? ==> r == plain)
  {
    assert [] + [c] == [c] && Erase([c]) == [c];
    SweepBackErased(text, roles, end, [c]);
  }

  lemma {:induction false} JumpsBackOver(text: string, roles: Skips, end: nat, n: nat)
    requires WellRoledBack(text, roles)
    requires 0 < end <= |text| && roles[end - 1].0 == Closing && n > 0
    ensures
      var start := PlainBack(text, end - 1, [text[end - 1]]);
      if start.Found? then SweepBack(text, roles, end, AngleStackBack(n)) == SweepBack(text, roles, start.pos, AngleStackBack(n))
      else !SweepBack(text, roles, end, AngleStackBack(n)).Found?
  {
    assert RoledBack(text, roles, end - 1);
    SweepBackOn(text, roles, end, AngleStackBack(n), Open(AngleStackBack(n) + [text[end - 1]]));
    BracketBackAlone(text, roles, end - 1, text[end - 1]);
    SweepBackAbove(text, roles, end - 1, AngleStackBack(n), [text[end - 1]]);
  }

  lemma {:induction false} SweepBackCounts(text: string, roles: Skips, end: nat, n: nat)
    requires WellRoledBack(text, roles) && end <= |text| && n > 0
    ensures
      var r := SweepBack(text, roles, end, AngleStackBack(n));
      AnglesBack(text, roles, end, n) == if r.Found? then Some(r.pos) else None
    decreases end
  {
    if end > 0 {
      if roles[end - 1].0 == Closing {
        JumpsBackOver(text, roles, end, n);
        var start := PlainBack(text, end - 1, [text[end - 1]]);
        if start.Found? {
          SweepBackCounts(text, roles, start.pos, n);
        }
      } else {
        var step := Backward(roles[end - 1].0, text[end - 1], end - 1, AngleStackBack(n));
        BackwardCounts(roles[end - 1].0, text[end - 1], end - 1, n);
        SweepBackOn(text, roles, end, AngleStackBack(n), step);
        if step.Open? {
          SweepBackCounts(text, roles, Previous(roles, end), |step.stack|);
        }
      }
    }
  }

  lemma {:induction false} ReverseCloseSweeps(lines: seq<string>, n: nat, pos: nat)
    requires n < |lines| && pos < |lines[n]| && BackwardRole(lines[n], pos) == Greater
    ensures Start(lines, n) + pos < |Flatten(lines)|
    ensures StartsAt(lines, ReverseClose(lines, n, pos),
                     SweepBack(Flatten(lines), RolesBack(lines), Start(lines, n) + pos, AngleStackBack(1)))
  {
    LineStarts(lines, n);
    ScanBackSweeps(lines, n, pos, AngleStackBack(1));
    OpenFromSweeps(lines, n, ScanBack(lines[n], pos, AngleStackBack(1)),
                   SweepBack(Flatten(lines), RolesBack(lines), Start(lines, n) + pos, AngleStackBack(1)));
    ReverseCloseFromGreater(lines, n, pos);
  }

  lemma {:induction false} ReverseCloseFromGreater(lines: seq<string>, n: nat, pos: nat)
    requires n < |lines| && pos < |lines[n]| && BackwardRole(lines[n], pos) == Greater
    ensures ReverseClose(lines, n, pos) == OpenFrom(lines, n, ScanBack(lines[n], pos, AngleStackBack(1)))
  {
    assert [] + ['>'] == AngleStackBack(1);
    GreaterIsPushed(lines[n], pos);
  }

  lemma {:induction false} GreaterIsPushed(line: string, pos: nat)
    requires pos < |line| && BackwardRole(line, pos) == Greater
    ensures line[pos] == '>' && ScanBack(line, pos + 1, []) == ScanBack(line, pos, [] + ['>'])
  {
    ScanBackOn(line, pos + 1, [], Open([] + ['>']));
  }

  /** The same backwards, from an angle bracket that closes. */
  lemma {:induction false} ReverseCloseCountsAngles(lines: seq<string>, n: nat, pos: nat)
    requires n < |lines| && pos < |lines[n]| && BackwardRole(lines[n], pos) == Greater
    ensures
      var b := Start(lines, n) + pos;
      && b < |Flatten(lines)|
      && match AnglesBack(Flatten(lines), RolesBack(lines), b, 1)
         case Some(a) => StartsAt(lines, ReverseClose(lines, n, pos), Found(a))
         case None => ReverseClose(lines, n, pos) == None
  {
    ReverseCloseSweeps(lines, n, pos);
    RolesBackAreWell(lines);
    SweepBackCounts(Flatten(lines), RolesBack(lines), Start(lines, n) + pos, 1);
  }

  // ---------------------------------------------------------------- which angle brackets are operators

  predicate EndsIn(s: string, c: char) {
    s != "" && s[|s| - 1] == c
  }

  /** Forwards: `<<`, `operator<`, `->` and `operator` with one more character before `>` are operators. */
  lemma {:induction false} ForwardRolesExactly(a: string, c: char, b: string)
    ensures
      var role := ForwardRole(a + [c] + b, |a|);
      && (role == Less <==> c == '<' && !EndsIn(a, '<') && !EndsInWord(a, "operator"))
      && (role == SecondLess <==> c == '<' && EndsIn(a, '<'))
      && (role == Greater <==> c == '>' && !EndsIn(a, '-') && !(a != "" && EndsInWord(a[..|a| - 1], "operator")))
      && (role == Semicolon <==> c == ';')
  {
    var line := a + [c] + b;
    assert line[|a|] == c && line[..|a|] == a;
    EndsWithOperatorExactly(a);
    if a == "" {
      assert !EndsWithOperator(a);
    } else {
      assert line[|a| - 1] == a[|a| - 1] && line[..|a| - 1] == a[..|a| - 1];
      EndsWithOperatorExactly(a[..|a| - 1]);
    }
  }

  /** Backwards: `<<`, `->`, a spaced `>=` and `operator>` are, and take the character before them along. */
  lemma {:induction false} BackwardRolesExactly(a: string, c: char, b: string)
    ensures
      var line := a + [c] + b;
      var role := BackwardRole(line, |a|);
      var spaced := a != "" && IsSpace(a[|a| - 1]) && |b| >= 2 && b[0] == '=' && IsSpace(b[1]);
      && (role == Greater <==> c == '>' && !EndsIn(a, '-') && !spaced && !EndsInWord(a, "operator"))
      && (role == Less <==> c == '<' && !EndsIn(a, '<'))
      && (role == Semicolon <==> c == ';')
      && (SkipsPrevious(line, |a|) <==> (c == '<' || c == '>') && role == NoRole)
  {
    var line := a + [c] + b;
    assert line[|a|] == c && line[..|a|] == a;
    EndsWithOperatorExactly(a);
    if a == "" {
      assert !EndsWithOperator(a);
    } else {
      var tail := line[|a| - 1..];
      assert tail == [a[|a| - 1], c] + b;
    }
  }
}
