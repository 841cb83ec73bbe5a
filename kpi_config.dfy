/**
 * The attainment thresholds (src/components/KPIConfig.jsx): the pass mark a
 * student must beat for a CO, and the class-level targets for COs and POs.
 */
module KpiConfig {
  import opened Options

  datatype Kpi = Kpi(targetPassMarks: real, kpiCO: real, kpiPO: real)

  datatype Field = TargetPassMarks | KpiCO | KpiPO

  /** The thresholds used when none exist: 40, 50 and 50. */
  const Defaults := Kpi(40.0, 50.0, 50.0)

  function Initial(existing: Option<Kpi>): Kpi
  {
    existing.GetOr(Defaults)
  }

  function Get(k: Kpi, f: Field): real
  {
    match f
    case TargetPassMarks => k.targetPassMarks
    case KpiCO => k.kpiCO
    case KpiPO => k.kpiPO
  }

  /**
   * `handleChange(field, value)`: stores `parseFloat(value) || 0`, so text that does
   * not parse (`parseFloat` gives NaN, here None) stores 0; nothing else changes.
   */
  function HandleChange(parseFloat: string -> Option<real>, k: Kpi, f: Field, value: string): (r: Kpi)
    ensures Get(r, f) == (if parseFloat(value).Some? then parseFloat(value).value else 0.0)
    ensures forall g :: g != f ==> Get(r, g) == Get(k, g)
  {
    var v := parseFloat(value).GetOr(0.0);
    match f
    case TargetPassMarks => k.(targetPassMarks := v)
    case KpiCO => k.(kpiCO := v)
    case KpiPO => k.(kpiPO := v)
  }

  /** `handleSubmit`: every threshold strictly positive; no upper bound. */
  predicate Valid(k: Kpi)
  {
    k.targetPassMarks > 0.0 && k.kpiCO > 0.0 && k.kpiPO > 0.0
  }

  /** The defaults are accepted, and thresholds above 100 are accepted too. */
  lemma DefaultsAccepted()
    ensures Initial(None) == Kpi(40.0, 50.0, 50.0) && Valid(Initial(None))
    ensures Valid(Kpi(150.0, 150.0, 150.0))
  {
  }

  /** Entering text that does not parse as a number makes the thresholds invalid. */
  lemma NonNumericRejected(parseFloat: string -> Option<real>, k: Kpi, f: Field, value: string)
    requires parseFloat(value).None?
    ensures Get(HandleChange(parseFloat, k, f, value), f) == 0.0
    ensures !Valid(HandleChange(parseFloat, k, f, value))
  {
    var r := HandleChange(parseFloat, k, f, value);
    match f
    case TargetPassMarks => assert r.targetPassMarks == 0.0;
    case KpiCO => assert r.kpiCO == 0.0;
    case KpiPO => assert r.kpiPO == 0.0;
  }
}
