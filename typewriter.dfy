/** The typewriter headline of the home page (frontend/src/pages/Home.jsx):
    an effect that, from the current `(roleIndex, displayText, isDeleting)`,
    schedules the next state. Typing adds one character every 100 ms, a
    fully typed role stays for 2 s, deleting removes one character every
    50 ms, and an emptied line moves on to the next role at once. Timers
    are not modelled as time: each step carries its delay as a number. */
module Typewriter {

  const Roles: seq<string> := [
    "Full-Stack Developer",
    "Python Developer",
    "MERN Stack Developer",
    "Backend Developer",
    "Frontend Developer"
  ]

  const TypeDelayMs: nat := 100
  const DeleteDelayMs: nat := 50
  const PauseMs: nat := 2000

  datatype State = State(roleIndex: int, text: string, deleting: bool)

  /** The initial `useState` values. */
  const Start: State := State(0, "", false)

  /** What one run of the effect does: schedule the next state after a
      delay, set it at once, or do nothing (no branch applies). */
  datatype Effect = After(delayMs: nat, next: State) | Now(next: State) | Idle

  /** `s.slice(0, n)` for a non-negative `n`: JavaScript clamps `n` to the
      length of `s`. */
  function SlicePrefix(s: string, n: nat): (r: string)
    ensures r <= s
    ensures |r| == if n <= |s| then n else |s|
  {
    if n <= |s| then s[..n] else s
  }

  // The four guards of the effect, in source order.
  predicate Typing(s: State, role: string) { !s.deleting && |s.text| < |role| }
  predicate Erasing(s: State) { s.deleting && |s.text| > 0 }
  predicate Pausing(s: State, role: string) { !s.deleting && |s.text| == |role| }
  predicate Switching(s: State) { s.deleting && |s.text| == 0 }

  /** The effect body. `roles[roleIndex]` must exist, or reading its length
      throws. */
  function Step(s: State): (e: Effect)
    requires 0 <= s.roleIndex < |Roles|
    ensures !e.Idle? ==> 0 <= e.next.roleIndex < |Roles|
  {
    var role := Roles[s.roleIndex];
    if Typing(s, role) then After(TypeDelayMs, s.(text := SlicePrefix(role, |s.text| + 1)))
    else if Erasing(s) then After(DeleteDelayMs, s.(text := SlicePrefix(role, |s.text| - 1)))
    else if Pausing(s, role) then After(PauseMs, s.(deleting := true))
    else if Switching(s) then Now(State((s.roleIndex + 1) % |Roles|, s.text, false))
    else Idle
  }

  /** The invariant of the headline: the role index is in range and the
      displayed text is a prefix of the current role. */
  ghost predicate Valid(s: State)
  {
    0 <= s.roleIndex < |Roles| && s.text <= Roles[s.roleIndex]
  }

  /** In a state satisfying the invariant exactly one of the four guards
      holds, so the effect always schedules something, and the next state
      satisfies the invariant again. */
  lemma StepKeepsPrefix(s: State)
    requires Valid(s)
    ensures var role := Roles[s.roleIndex];
      (if Typing(s, role) then 1 else 0) + (if Erasing(s) then 1 else 0)
      + (if Pausing(s, role) then 1 else 0) + (if Switching(s) then 1 else 0) == 1
    ensures !Step(s).Idle? && Valid(Step(s).next)
  {
    var role := Roles[s.roleIndex];
    if Typing(s, role) {
      assert role[..|s.text| + 1] <= role;
    } else if Erasing(s) {
      assert role[..|s.text| - 1] <= role;
    }
  }

  /** Typing: the text grows by the role's next character, after 100 ms. */
  lemma TypingStep(s: State)
    requires Valid(s) && !s.deleting && |s.text| < |Roles[s.roleIndex]|
    ensures Step(s) == After(TypeDelayMs, s.(text := s.text + [Roles[s.roleIndex][|s.text|]]))
  {
    var role := Roles[s.roleIndex];
    assert role[..|s.text| + 1] == role[..|s.text|] + [role[|s.text|]];
  }

  /** Deleting: the text loses its last character, after 50 ms. */
  lemma ErasingStep(s: State)
    requires Valid(s) && s.deleting && |s.text| > 0
    ensures Step(s) == After(DeleteDelayMs, s.(text := s.text[..|s.text| - 1]))
  {
    var role := Roles[s.roleIndex];
    assert role[..|s.text| - 1] == s.text[..|s.text| - 1];
  }

  /** A fully typed role stays 2 s and then deletion starts; an emptied
      line switches to the next role, cyclically, with no delay. */
  lemma TurnSteps(s: State)
    requires Valid(s)
    ensures !s.deleting && s.text == Roles[s.roleIndex] ==> Step(s) == After(PauseMs, s.(deleting := true))
    ensures s.deleting && s.text == "" ==>
      Step(s) == Now(State(if s.roleIndex == |Roles| - 1 then 0 else s.roleIndex + 1, "", false))
  {
    if !s.deleting && s.text == Roles[s.roleIndex] {
      assert |s.text| == |Roles[s.roleIndex]|;
    }
  }

  /** `n` runs of the effect from `s`: the state reached and the total
      delay scheduled on the way. */
  function Run(s: State, n: nat): (r: (State, nat))
    requires 0 <= s.roleIndex < |Roles|
    ensures 0 <= r.0.roleIndex < |Roles|
    decreases n
  {
    if n == 0 then (s, 0)
    else
      match Step(s)
      case After(d, t) => var r := Run(t, n - 1); (r.0, d + r.1)
      case Now(t) => Run(t, n - 1)
      case Idle => (s, 0)
  }

  /** The invariant holds in every state reached from a valid one. */
  lemma {:induction false} RunKeepsPrefix(s: State, n: nat)
    requires Valid(s)
    ensures Valid(Run(s, n).0)
    decreases n
  {
    if n > 0 {
      StepKeepsPrefix(s);
      RunKeepsPrefix(Step(s).next, n - 1);
    }
  }

  /** Every state the headline ever shows: the role index is one of the
      five and the text is a prefix of that role. */
  lemma ReachableStates(n: nat)
    ensures 0 <= Run(Start, n).0.roleIndex < 5
    ensures Run(Start, n).0.text <= Roles[Run(Start, n).0.roleIndex]
  {
    RunKeepsPrefix(Start, n);
  }

  lemma {:induction false} RunSplit(s: State, a: nat, b: nat)
    requires Valid(s)
    ensures var first := Run(s, a);
      var second := Run(first.0, b);
      Run(s, a + b) == (second.0, first.1 + second.1)
    decreases a
  {
    if a > 0 {
      StepKeepsPrefix(s);
      RunSplit(Step(s).next, a - 1, b);
    }
  }

  /** From `k` typed characters, the rest of the role is typed in
      `|role| - k` steps of 100 ms. */
  lemma {:induction false} TypingPhase(i: nat, k: nat)
    requires i < |Roles| && k <= |Roles[i]|
    ensures Run(State(i, Roles[i][..k], false), |Roles[i]| - k)
         == (State(i, Roles[i], false), TypeDelayMs * (|Roles[i]| - k))
    decreases |Roles[i]| - k
  {
    var role := Roles[i];
    if k == |role| {
      assert role[..k] == role;
    } else {
      TypingStep(State(i, role[..k], false));
      assert role[..k] + [role[k]] == role[..k + 1];
      TypingPhase(i, k + 1);
    }
  }

  /** From `k` shown characters while deleting, the line empties in `k`
      steps of 50 ms. */
  lemma {:induction false} ErasingPhase(i: nat, k: nat)
    requires i < |Roles| && k <= |Roles[i]|
    ensures Run(State(i, Roles[i][..k], true), k) == (State(i, "", true), DeleteDelayMs * k)
  {
    var role := Roles[i];
    if k > 0 {
      ErasingStep(State(i, role[..k], true));
      assert role[..k][..k - 1] == role[..k - 1];
      ErasingPhase(i, k - 1);
    }
  }

  /** Typing a whole role and the pause: from an empty line, `|role| + 1`
      runs later the full role is shown and deletion has started. */
  lemma TypeAndPause(i: nat)
    requires i < |Roles|
    ensures Run(State(i, "", false), |Roles[i]| + 1)
         == (State(i, Roles[i], true), TypeDelayMs * |Roles[i]| + PauseMs)
  {
    var role := Roles[i];
    var n := |role|;
    assert role[..0] == "";
    TypingPhase(i, 0);
    TurnSteps(State(i, role, false));
    RunSplit(State(i, "", false), n, 1);
  }

  /** Deleting a whole role and the switch: `|role| + 1` runs later the
      line is empty on the next role. */
  lemma EraseAndSwitch(i: nat)
    requires i < |Roles|
    ensures Run(State(i, Roles[i], true), |Roles[i]| + 1)
         == (State((i + 1) % |Roles|, "", false), DeleteDelayMs * |Roles[i]|)
  {
    var role := Roles[i];
    var n := |role|;
    assert role[..n] == role;
    ErasingPhase(i, n);
    TurnSteps(State(i, "", true));
    RunSplit(State(i, role, true), n, 1);
  }

  /** One full cycle: from an empty line on role `i`, after typing, the
      pause, deleting and the switch (2 * |role| + 2 runs), the line is
      empty on the next role, 150 ms per character plus 2 s later. */
  lemma FullCycle(i: nat)
    requires i < |Roles|
    ensures var n := |Roles[i]|;
      Run(State(i, "", false), 2 * n + 2)
        == (State((i + 1) % |Roles|, "", false), (TypeDelayMs + DeleteDelayMs) * n + PauseMs)
  {
    var n := |Roles[i]|;
    TypeAndPause(i);
    EraseAndSwitch(i);
    RunSplit(State(i, "", false), n + 1, n + 1);
  }
}
