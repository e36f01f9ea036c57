/** The derived values of the `ProgressBar` component
    (src/components/ProgressBar.tsx), over exact reals. `progress` is the
    percentage computed by the app; `current` the grams eaten; `total` the goal. */
module ProgressBar {

  /** What the bar shows: colour switch, fill width and the "% over goal" note. */
  datatype Bar = Bar(isOverGoal: bool, displayProgress: real, overProgress: real)

  /** `Math.min(progress, 100)`: the fill width never passes 100 and is the
      progress itself up to that point. */
  function DisplayProgress(progress: real): (r: real)
    ensures r <= 100.0 && r <= progress
    ensures r == progress <==> progress <= 100.0
    ensures progress >= 100.0 ==> r == 100.0
  {
    if progress < 100.0 then progress else 100.0
  }

  /** How far past the goal the user is, as a percentage of the goal; zero
      while not over goal. The bar is only rendered once a goal is set, so
      `total` is never zero here. */
  function OverProgress(current: real, total: real): (r: real)
    requires total != 0.0
    ensures current <= total ==> r == 0.0
    ensures current > total && total > 0.0 ==> r > 0.0
  {
    if current > total then (current - total) / total * 100.0 else 0.0
  }

  /** Over goal, the extra percentage is exactly the progress percentage minus
      100, so it agrees with the uncapped progress the app passes in. */
  lemma OverProgressIsExcessOfProgress(current: real, total: real)
    requires total != 0.0 && current > total
    ensures OverProgress(current, total) == current / total * 100.0 - 100.0
  {
    calc {
      OverProgress(current, total);
      (current - total) / total * 100.0;
      { assert (current - total) / total == current / total - total / total; }
      (current / total - total / total) * 100.0;
      { assert total / total == 1.0; }
      current / total * 100.0 - 100.0;
    }
  }

  /** The bar's three derived values for the given props. */
  function Render(progress: real, current: real, total: real): (b: Bar)
    requires total != 0.0
    ensures b.isOverGoal <==> current > total
    ensures b.displayProgress <= 100.0
    ensures b.isOverGoal <==> b.overProgress != 0.0
  {
    Bar(current > total, DisplayProgress(progress), OverProgress(current, total))
  }

  /** Only the fill is capped: with the app's progress of `current / total * 100`
      and a positive goal, the shown width is 100 exactly when the goal is met,
      while the progress value itself may exceed 100. */
  lemma FillCapsExactlyAtGoal(current: real, total: real)
    requires total > 0.0 && current >= 0.0
    ensures Render(current / total * 100.0, current, total).displayProgress == 100.0 <==> current >= total
    ensures current > total ==> current / total * 100.0 > 100.0
  {
    assert current == (current / total) * total;
    if current >= total {
      assert current / total >= 1.0;
    } else {
      assert current / total < 1.0;
    }
  }
}
