/** The step indicator at the top of each questionnaire page. */
module ProgressTimeline {
  import opened Wrappers
  import opened Text

  datatype ProgressStep = ProgressStep(id: string, title: string, order: int)

  datatype StepState = Completed | Current | Upcoming

  /** Where a step stands relative to the current step number. */
  function StateOf(order: int, currentStep: int): (r: StepState)
    ensures r == Completed <==> order < currentStep
    ensures r == Current <==> order == currentStep
    ensures r == Upcoming <==> order > currentStep
  {
    if order < currentStep then Completed
    else if order == currentStep then Current
    else Upcoming
  }

  /** A check mark replaces the order number exactly on completed steps. */
  predicate ShowsCheck(step: ProgressStep, currentStep: int) {
    StateOf(step.order, currentStep) == Completed
  }

  /** The circle is filled for completed steps and the current one. */
  predicate IsFilled(step: ProgressStep, currentStep: int) {
    StateOf(step.order, currentStep) != Upcoming
  }

  lemma CheckAndFill(step: ProgressStep, currentStep: int)
    ensures ShowsCheck(step, currentStep) <==> step.order < currentStep
    ensures IsFilled(step, currentStep) <==> step.order <= currentStep
    ensures ShowsCheck(step, currentStep) ==> IsFilled(step, currentStep)
  {
  }

  /** One connector after every step but the last; it is filled when its step lies before the current one. */
  function Connectors(steps: seq<ProgressStep>, currentStep: int): (r: seq<bool>)
    ensures |r| == if steps == [] then 0 else |steps| - 1
    ensures forall i :: 0 <= i < |r| ==> (r[i] <==> steps[i].order < currentStep)
  {
    if |steps| <= 1 then []
    else [steps[0].order < currentStep] + Connectors(steps[1..], currentStep)
  }

  /** The first index whose step has the given order, if any. */
  function FindOrder(steps: seq<ProgressStep>, order: int): (r: Option<nat>)
    ensures r.Some? ==> r.value < |steps| && steps[r.value].order == order
    ensures r.Some? ==> forall j :: 0 <= j < r.value ==> steps[j].order != order
    ensures r.None? ==> forall j :: 0 <= j < |steps| ==> steps[j].order != order
  {
    if steps == [] then None
    else if steps[0].order == order then Some(0)
    else match FindOrder(steps[1..], order)
      case Some(k) => Some(k + 1)
      case None => None
  }

  /** The title shown on small screens: that of the first step at the current number, if any. */
  function MobileTitle(steps: seq<ProgressStep>, currentStep: int): (r: Option<string>)
    ensures r.Some? <==> exists i :: 0 <= i < |steps| && steps[i].order == currentStep
    ensures r.Some? ==> exists i :: (0 <= i < |steps| && steps[i].order == currentStep
      && r.value == steps[i].title && forall j :: 0 <= j < i ==> steps[j].order != currentStep)
  {
    match FindOrder(steps, currentStep)
    case Some(i) => Some(steps[i].title)
    case None => None
  }

  /** The counter under it: "Step n of m", whatever the steps' own numbers are. */
  function Counter(steps: seq<ProgressStep>, currentStep: int): string {
    "Step " + IntToDecimal(currentStep) + " of " + NatToDecimal(|steps|)
  }

  /** The counter reads "Step ", the current step number, " of ", then the number of steps. */
  lemma CounterShowsNumbers(steps: seq<ProgressStep>, currentStep: nat)
    ensures var r := Counter(steps, currentStep);
      var k := |NatToDecimal(currentStep)|;
      && |r| == 9 + k + |NatToDecimal(|steps|)|
      && r[..5] == "Step " && r[5 + k..9 + k] == " of "
      && AllDigits(r[5..5 + k]) && DigitsValue(r[5..5 + k]) == currentStep
      && AllDigits(r[9 + k..]) && DigitsValue(r[9 + k..]) == |steps|
  {
    var a, b := NatToDecimal(currentStep), NatToDecimal(|steps|);
    var r := Counter(steps, currentStep);
    assert r == "Step " + a + " of " + b;
    assert r[5..5 + |a|] == a;
    assert r[9 + |a|..] == b;
    NatToDecimalValue(currentStep);
    NatToDecimalValue(|steps|);
  }
}
