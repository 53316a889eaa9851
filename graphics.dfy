/** The colour `graphics` gives each person's square. */
module Graphics {
  import opened Viruses
  import opened Persons

  datatype Colour = Red | Yellow | Blue | Green

  /** The tests of `graphics` in their order: dead, then infected, then
      immune; the first that holds picks the colour. */
  function Shade(h: Health): Colour
  {
    if !h.isAlive then Red else if h.isInfected then Yellow else if h.isImmune then Blue else Green
  }

  /** For a well-formed person the legend the program prints is exact:
      green is alive and never infected, yellow currently infected, blue
      recovered and immune, red dead. */
  lemma ShadeMatchesLegend(h: Health, v: Virus)
    requires Wellformed(h, v)
    ensures Shade(h) == Green <==> !h.wasInfected
    ensures Shade(h) == Yellow <==> h.isInfected
    ensures Shade(h) == Blue <==> h.wasInfected && !h.isInfected && h.isAlive
    ensures Shade(h) == Red <==> !h.isAlive
  {
  }

  /** Precedence matters only for seeded people: one who ends both immune
      and dead is drawn red. */
  lemma DeadBeforeImmune(h: Health)
    requires h.isImmune && !h.isAlive
    ensures Shade(h) == Red
  {
  }
}
