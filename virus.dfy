/** The virus parameters (`Virus` in outbreak_gui.py). */
module Viruses {

  /** Python's `abs` on integers. */
  function Abs(x: int): nat
  {
    if x < 0 then -x else x
  }

  /** Epidemiological parameters: percentage risk of transmission per contact,
      percentage mortality at the end of the illness, and its length in days.
      They are never changed after construction. */
  datatype Virus = Virus(risk: int, mortality: int, duration: int)
  {
    /** What construction guarantees of the three parameters. */
    predicate Valid()
    {
      0 <= risk <= 100 && 0 <= mortality <= 100 && 0 <= duration
    }
  }

  /** `min(abs(x), 100)`: the clamping applied to both percentages. */
  function ClampPercent(x: int): (p: int)
    ensures 0 <= p <= 100
    ensures Abs(x) <= 100 ==> p == Abs(x)
    ensures Abs(x) >= 100 ==> p == 100
  {
    if Abs(x) <= 100 then Abs(x) else 100
  }

  /** `Virus.__init__`: percentages are made non-negative and capped at 100,
      the duration is made non-negative. */
  function NewVirus(risk: int, mortality: int, duration: int): (v: Virus)
    ensures v.Valid()
    ensures 0 <= risk <= 100 ==> v.risk == risk
    ensures -100 <= risk < 0 ==> v.risk == -risk
    ensures (risk > 100 || risk < -100) ==> v.risk == 100
    ensures 0 <= mortality <= 100 ==> v.mortality == mortality
    ensures -100 <= mortality < 0 ==> v.mortality == -mortality
    ensures (mortality > 100 || mortality < -100) ==> v.mortality == 100
    ensures v.duration == Abs(duration)
  {
    Virus(ClampPercent(risk), ClampPercent(mortality), Abs(duration))
  }

  /** Building a virus from the parameters of a valid one gives it back, and the
      sign of an argument never matters. */
  lemma NewVirusNormalises(v: Virus, risk: int, mortality: int, duration: int)
    ensures v.Valid() ==> NewVirus(v.risk, v.mortality, v.duration) == v
    ensures NewVirus(-risk, -mortality, -duration) == NewVirus(risk, mortality, duration)
  {
  }

  /** The documented example: (-150, 500, -7) becomes (100, 100, 7). */
  lemma NewVirusExample()
    ensures NewVirus(-150, 500, -7) == Virus(100, 100, 7)
  {
  }
}
