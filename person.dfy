/** A person's health (`Person` in outbreak_gui.py). */
module Persons {
  import opened Viruses

  /** The five fields of a person, as a value. */
  datatype Health = Health(isInfected: bool, wasInfected: bool, isImmune: bool, isAlive: bool, daysInfected: nat)

  /** The state of a newly constructed person: healthy, never infected, alive. */
  const Healthy := Health(false, false, false, true, 0)

  /** A value of `random.randint(1, 100)`. */
  predicate IsDraw(chance: int)
  {
    1 <= chance <= 100
  }

  /** Monotonicity of a change of state: once infected, once immune or once dead,
      a person stays so. */
  predicate Monotone(h: Health, h': Health)
  {
    (h.wasInfected ==> h'.wasInfected) && (h.isImmune ==> h'.isImmune) && (!h.isAlive ==> !h'.isAlive)
  }

  /** `end_of_sickness`: on the last day of the illness the person stops being
      infected and, depending on the draw, dies or becomes immune. */
  function SicknessEnded(h: Health, v: Virus, chance: int): (r: Health)
    ensures h.daysInfected != v.duration ==> r == h
    ensures h.daysInfected == v.duration ==>
      && !r.isInfected
      && (chance <= v.mortality ==> !r.isAlive && r.isImmune == h.isImmune)
      && (chance > v.mortality ==> r.isImmune && r.isAlive == h.isAlive)
      && r.wasInfected == h.wasInfected && r.daysInfected == h.daysInfected
    ensures Monotone(h, r)
  {
    if h.daysInfected == v.duration then
      if chance <= v.mortality then h.(isInfected := false, isAlive := false)
      else h.(isInfected := false, isImmune := true)
    else h
  }

  /** `virus_contact`: a person who was never infected catches the virus when
      the draw is at most the risk; anyone else is left alone. */
  function AfterContact(h: Health, v: Virus, chance: int): (r: Health)
    ensures h.wasInfected ==> r == h
    ensures !h.wasInfected && chance <= v.risk ==> r == h.(isInfected := true, wasInfected := true)
    ensures !h.wasInfected && chance > v.risk ==> r == h
    ensures Monotone(h, r)
  {
    if !h.wasInfected && chance <= v.risk then h.(isInfected := true, wasInfected := true) else h
  }

  /** What one iteration of `increase_day` does to one person: an infected
      person either gains a day of illness or, on the last day, resolves. */
  function AfterDay(h: Health, v: Virus, chance: int): (r: Health)
    ensures h.isInfected && h.daysInfected < v.duration ==> r == h.(daysInfected := h.daysInfected + 1)
    ensures h.isInfected && h.daysInfected == v.duration ==> r == SicknessEnded(h, v, chance)
    ensures !h.isInfected || h.daysInfected > v.duration ==> r == h
    ensures Monotone(h, r)
  {
    if h.isInfected && h.daysInfected < v.duration then h.(daysInfected := h.daysInfected + 1)
    else if h.isInfected && h.daysInfected == v.duration then SicknessEnded(h, v, chance)
    else h
  }

  /** The illness clock never runs past the duration. This holds of every
      person, seeded or not. */
  predicate Bounded(h: Health, v: Virus)
  {
    h.daysInfected <= v.duration
  }

  /** The consistency kept by every person who was never seeded: susceptible
      (exactly the healthy state), infected (alive, not immune), or resolved
      into exactly one of immune-and-alive or dead. */
  predicate Wellformed(h: Health, v: Virus)
  {
    && Bounded(h, v)
    && (!h.wasInfected ==> h == Healthy)
    && (h.isInfected ==> h.wasInfected && h.isAlive && !h.isImmune)
    && (h.wasInfected && !h.isInfected ==> h.daysInfected == v.duration && h.isImmune == h.isAlive)
  }

  /** A fresh person is well formed for any virus with a non-negative duration. */
  lemma HealthyWellformed(v: Virus)
    requires v.Valid()
    ensures Wellformed(Healthy, v)
  {
  }

  /** A well-formed person is never both immune and dead, and a dead one is not infected. */
  lemma WellformedTerminal(h: Health, v: Virus)
    requires Wellformed(h, v)
    ensures !(h.isImmune && !h.isAlive)
    ensures !h.isAlive ==> !h.isInfected
  {
  }

  /** A day's resolution and a contact both keep the illness clock bounded and
      keep a well-formed person well formed. */
  lemma StepsPreserve(h: Health, v: Virus, chance: int)
    ensures Bounded(h, v) ==> Bounded(AfterDay(h, v, chance), v) && Bounded(AfterContact(h, v, chance), v)
    ensures Wellformed(h, v) ==> Wellformed(AfterDay(h, v, chance), v) && Wellformed(AfterContact(h, v, chance), v)
  {
  }

  /** Risk 100 always infects a person never infected before; risk 0 never does.
      Mortality 100 always kills at the end of the illness; mortality 0 never does. */
  lemma ExtremePercentages(h: Health, v: Virus, chance: int)
    requires IsDraw(chance)
    ensures !h.wasInfected && v.risk == 100 ==> AfterContact(h, v, chance).isInfected
    ensures v.risk == 0 ==> AfterContact(h, v, chance) == h
    ensures h.daysInfected == v.duration && v.mortality == 100 ==> !SicknessEnded(h, v, chance).isAlive
    ensures h.daysInfected == v.duration && v.mortality == 0 ==> SicknessEnded(h, v, chance).isImmune
  {
  }

  /** Contact with the same draw is idempotent. */
  lemma ContactIdempotent(h: Health, v: Virus, chance: int)
    ensures AfterContact(AfterContact(h, v, chance), v, chance) == AfterContact(h, v, chance)
  {
  }

  /** Monotone is a preorder. */
  lemma MonotoneTransitive(a: Health, b: Health, c: Health)
    requires Monotone(a, b) && Monotone(b, c)
    ensures Monotone(a, c)
  {
  }

  /** Seeding sets only `isInfected`, so a seeded person can be infected again by
      contact after resolving, and can end up both immune and dead. */
  lemma SeededCanEndImmuneAndDead()
    ensures var v := Virus(100, 50, 0);
            var seeded := Healthy.(isInfected := true);
            var recovered := AfterDay(seeded, v, 80);
            var reinfected := AfterContact(recovered, v, 1);
            var died := AfterDay(reinfected, v, 10);
            recovered.isImmune && reinfected.isInfected && died.isImmune && !died.isAlive
  {
  }

  /** A seeded person is missing from the ever-infected count only until a
      contact succeeds: seeding leaves `wasInfected` false, so a contact still
      applies and sets it. */
  lemma SeededCountedOnContact(v: Virus, daysInfected: nat, chance: int)
    requires chance <= v.risk
    ensures var seeded := Healthy.(isInfected := true, daysInfected := daysInfected);
            !seeded.wasInfected && AfterContact(seeded, v, chance).wasInfected
  {
  }

  /** A seeded person who dies is still open to contact, since `wasInfected`
      was never set: a contact infects the dead person, and from then on they
      are counted as ever infected. */
  lemma SeededInfectedAfterDeath()
    ensures var v := Virus(100, 100, 0);
            var died := AfterDay(Healthy.(isInfected := true), v, 1);
            var contacted := AfterContact(died, v, 1);
            !died.isAlive && !contacted.isAlive && contacted.isInfected && contacted.wasInfected
  {
  }

  /** A person, updated in place by the simulation. */
  class Person {
    var isInfected: bool
    var wasInfected: bool
    var isImmune: bool
    var isAlive: bool
    var daysInfected: nat

    /** The person's fields as a value. */
    function State(): Health
      reads this
    {
      Health(isInfected, wasInfected, isImmune, isAlive, daysInfected)
    }

    /** `Person.__init__` */
    constructor ()
      ensures State() == Healthy
    {
      isInfected, wasInfected, isImmune, isAlive, daysInfected := false, false, false, true, 0;
    }

    /** `end_of_sickness`, with the `randint(1, 100)` draw passed in. */
    method EndOfSickness(v: Virus, chance: int)
      requires IsDraw(chance)
      modifies this
      ensures State() == SicknessEnded(old(State()), v, chance)
    {
      if daysInfected == v.duration {
        isInfected := false;
        if chance <= v.mortality {
          isAlive := false;
        } else {
          isImmune := true;
        }
      }
    }

    /** `virus_contact`, with the `randint(1, 100)` draw passed in. */
    method VirusContact(v: Virus, chance: int)
      requires IsDraw(chance)
      modifies this
      ensures State() == AfterContact(old(State()), v, chance)
    {
      if wasInfected == false {
        if chance <= v.risk {
          isInfected := true;
          wasInfected := true;
        }
      }
    }
  }
}
