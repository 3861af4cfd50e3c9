/** The page's initial parameter range (src/app/page.tsx). */
module Page {
  import opened Types
  import ParameterControls

  /** The range the page starts with before any edit. */
  function InitialParameterRange(): ParameterRange
  {
    ParameterRange(
      Bound(0.1, 1.0, 0.1),
      Bound(0.1, 1.0, 0.1),
      Bound(100.0, 1000.0, 100.0))
  }

  /** Resetting the editor brings back the page's starting range. */
  lemma ResetRestoresInitialRange(current: ParameterRange)
    ensures ParameterControls.ResetToDefaults(current) == InitialParameterRange()
  {
  }
}
