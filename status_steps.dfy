/**
 * The lifecycle indicator under a message: a fixed list of steps, each shown
 * active, current (its icon spinning) or pending, with a connector after every
 * step but the last.
 */
module StatusSteps {
  import opened Wrappers
  import opened ChatTypes

  datatype Icon = ShieldCheck | SendIcon | Server | Check | KeyRound | CheckCheck | Loader

  datatype StepInfo = StepInfo(id: Step, caption: string, icon: Icon)

  /** The `steps` list, in display order. */
  const Steps: seq<StepInfo> := [
    StepInfo(Encrypting, "Encrypting", ShieldCheck),
    StepInfo(Sending, "Sending", SendIcon),
    StepInfo(Sent, "On Server", Server),
    StepInfo(Delivered, "Delivered", Check),
    StepInfo(Decrypting, "Decrypting", KeyRound),
    StepInfo(Complete, "Complete", CheckCheck)
  ]

  /** `findIndex(step => step.id === x)`: the first index whose id is `x`, or -1. */
  function FindIndex(s: seq<StepInfo>, x: Step): (r: int)
    ensures -1 <= r < |s|
    ensures r == -1 <==> forall j :: 0 <= j < |s| ==> s[j].id != x
    ensures r >= 0 ==> s[r].id == x && forall j :: 0 <= j < r ==> s[j].id != x
  {
    FindIndexFrom(s, x, 0)
  }

  /** The search from index `from` on. */
  function FindIndexFrom(s: seq<StepInfo>, x: Step, from: nat): (r: int)
    requires from <= |s|
    ensures r == -1 || from <= r < |s|
    ensures r == -1 <==> forall j :: from <= j < |s| ==> s[j].id != x
    ensures r >= 0 ==> s[r].id == x && forall j :: from <= j < r ==> s[j].id != x
    decreases |s| - from
  {
    if from == |s| then -1
    else if s[from].id == x then from
    else FindIndexFrom(s, x, from + 1)
  }

  function CurrentStepIndex(step: Step): int {
    FindIndex(Steps, step)
  }

  /** How one step is drawn. */
  datatype StepView = StepView(
    caption: string, active: bool, current: bool, icon: Icon, spinning: bool,
    connector: Option<bool>)   // None: no connector; Some(h): a connector, highlighted iff h

  function RenderStep(step: Step, index: nat): StepView
    requires index < |Steps|
  {
    var current := CurrentStepIndex(step);
    var isCurrent := index == current;
    var busy := step == Encrypting || step == Sending || step == Decrypting;
    StepView(
      Steps[index].caption,
      index <= current,
      isCurrent,
      if isCurrent && busy then Loader else Steps[index].icon,
      isCurrent,
      if index < |Steps| - 1 then Some(index < current) else None)
  }

  /** The `steps.map(...)` of the component for `status.step`. */
  function Render(step: Step): (v: seq<StepView>)
    ensures |v| == |Steps|
  {
    seq(|Steps|, i requires 0 <= i < |Steps| => RenderStep(step, i))
  }

  /** Idle is not listed. */
  lemma IdleIsNotListed()
    ensures CurrentStepIndex(Idle) == -1
  {
    assert forall j :: 0 <= j < |Steps| ==> Steps[j].id != Idle;
  }

  /**
   * The list holds encrypting, sending, sent, delivered, decrypting and
   * complete, in that order, each once, so each step's index is its position.
   */
  lemma StepsInOrder()
    ensures Steps[0].id == Encrypting && Steps[1].id == Sending && Steps[2].id == Sent
    ensures Steps[3].id == Delivered && Steps[4].id == Decrypting && Steps[5].id == Complete
    ensures forall k :: 0 <= k < |Steps| ==> CurrentStepIndex(Steps[k].id) == k
  {
    forall k | 0 <= k < |Steps| ensures CurrentStepIndex(Steps[k].id) == k {
      assert forall j :: 0 <= j < k ==> Steps[j].id != Steps[k].id;
    }
  }

  /** The active steps are exactly the first `CurrentStepIndex + 1`; none for idle. */
  lemma ActiveStepsFormPrefix(step: Step, i: nat)
    requires i < |Steps|
    ensures Render(step)[i].active <==> i <= CurrentStepIndex(step)
    ensures step == Idle ==> !Render(step)[i].active
  {
    IdleIsNotListed();
  }

  /** An active step has only active steps before it. */
  lemma ActiveIsDownwardClosed(step: Step, i: nat, j: nat)
    requires i <= j < |Steps| && Render(step)[j].active
    ensures Render(step)[i].active
  {
  }

  /** At most one step is current. */
  lemma AtMostOneCurrent(step: Step, i: nat, j: nat)
    requires i < |Steps| && j < |Steps|
    requires Render(step)[i].current && Render(step)[j].current
    ensures i == j
  {
  }

  /** A step is current iff the status names a listed step, i.e. is not idle. */
  lemma CurrentExistsUnlessIdle(step: Step)
    ensures step != Idle <==> exists k :: 0 <= k < |Steps| && Render(step)[k].current
  {
    var c := CurrentStepIndex(step);
    assert c == -1 <==> step == Idle by {
      IdleIsNotListed();
      if step != Idle {
        assert Steps[0].id == step || Steps[1].id == step || Steps[2].id == step
            || Steps[3].id == step || Steps[4].id == step || Steps[5].id == step;
      }
    }
    if step != Idle {
      assert RenderStep(step, c).current;
      assert Render(step)[c] == RenderStep(step, c);
    } else {
      forall k | 0 <= k < |Steps| ensures !Render(step)[k].current {
        assert Render(step)[k] == RenderStep(step, k);
      }
    }
  }

  /** The spinner replaces a step's icon iff that step is current and one of encrypting, sending, decrypting. */
  lemma SpinnerOnlyForBusySteps(step: Step, i: nat)
    requires i < |Steps|
    ensures Render(step)[i].icon == Loader <==>
      Render(step)[i].current && (step == Encrypting || step == Sending || step == Decrypting)
    ensures Render(step)[i].icon != Loader ==> Render(step)[i].icon == Steps[i].icon
  {
  }

  /** Whatever its icon, the current step spins, and only it. */
  lemma CurrentStepSpins(step: Step, i: nat)
    requires i < |Steps|
    ensures Render(step)[i].spinning <==> Render(step)[i].current
  {
  }

  /** Every step but the last has a connector, highlighted iff the step lies before the current one. */
  lemma Connectors(step: Step, i: nat)
    requires i < |Steps|
    ensures Render(step)[i].connector.Some? <==> i < |Steps| - 1
    ensures Render(step)[i].connector == Some(true) <==> i < |Steps| - 1 && i < CurrentStepIndex(step)
    ensures Render(step)[i].connector == Some(true) ==> Render(step)[i].active && Render(step)[i + 1].active
  {
  }
}
