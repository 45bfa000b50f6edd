/** The write-admission gate (aoms/contest.py). */
module Contest {
  // Identifiers, claim keys and agent names are compared only for equality and order, so natural
  // numbers stand for the strings of the program. A digest is whatever the hash function returns.

  import opened Common

  type Id = nat
  type Key = nat
  type Agent = nat
  type Digest = int
  type Time = int

  datatype Trigger = SlotCollision | Retrograde | Derived | PolicyHold
  datatype Disposition = Admitted | Contested

  /** Everything the gate may know about a write: no content, only its digest. */
  datatype Intent = Intent(
    digest: Digest,
    claimKey: Option<Key>,
    supersedes: Option<Id>,
    assertedAt: Option<Time>,
    derivedFrom: seq<Id>)

  /** One admitted record currently holding a claim slot. */
  datatype Occupant = Occupant(id: Id, digest: Digest, assertedAt: Option<Time>)

  datatype Detail =
    | NoDetail
    | Corroboration
    | DerivedFromCount(count: nat)
    | RetrogradeCount(count: nat, assertedAt: Time)
    | UndeclaredCount(count: nat)
    | DeclaredSupersession(declared: bool)

  datatype Decision = Decision(
    disposition: Disposition,
    trigger: Option<Trigger>,
    incumbents: set<Id>,
    detail: Detail)

  function Incumbents(slot: set<Occupant>): set<Id> {
    set o | o in slot :: o.id
  }

  function NewerThan(intent: Intent, slot: set<Occupant>): set<Occupant> {
    if intent.assertedAt.None? then {} else
    set o | o in slot && o.assertedAt.Some? && intent.assertedAt.value < o.assertedAt.value
  }

  function Undeclared(intent: Intent, slot: set<Occupant>): set<Occupant> {
    set o | o in slot && Some(o.id) != intent.supersedes
  }

  /** Route one write to the slot or to the ledger. Occupants have distinct ids, and the verdict
      never depends on the order they are listed in, so the slot is a set. */
  function Decide(intent: Intent, slot: set<Occupant>, enabled: set<Trigger>): Decision {
    var incumbents := Incumbents(slot);
    if intent.claimKey.None? || slot == {} then
      Decision(Admitted, None, {}, NoDetail)
    else if forall o | o in slot :: o.digest == intent.digest then
      Decision(Admitted, None, incumbents, Corroboration)
    else if Derived in enabled && intent.derivedFrom != [] then
      Decision(Contested, Some(Derived), incumbents, DerivedFromCount(|intent.derivedFrom|))
    else if Retrograde in enabled && NewerThan(intent, slot) != {} then
      Decision(Contested, Some(Retrograde), incumbents,
               RetrogradeCount(|NewerThan(intent, slot)|, intent.assertedAt.value))
    else if SlotCollision in enabled && Undeclared(intent, slot) != {} then
      Decision(Contested, Some(SlotCollision), incumbents, UndeclaredCount(|Undeclared(intent, slot)|))
    else
      Decision(Admitted, None, incumbents, DeclaredSupersession(Undeclared(intent, slot) == {}))
  }

  /** More occupants or more triggers can only contest more: no occupant and no rule ever helps a
      contested write back into the slot. */
  lemma GateIsMonotone(intent: Intent, slot: set<Occupant>, slot': set<Occupant>,
                       enabled: set<Trigger>, enabled': set<Trigger>)
    requires slot <= slot' && enabled <= enabled'
    ensures Decide(intent, slot, enabled).disposition == Contested
            ==> Decide(intent, slot', enabled').disposition == Contested
  {
    if Decide(intent, slot, enabled).disposition == Contested {
      var o :| o in slot && o.digest != intent.digest;
      assert o in slot';
      assert NewerThan(intent, slot) <= NewerThan(intent, slot');
      assert Undeclared(intent, slot) <= Undeclared(intent, slot');
    }
  }

  /** With slot collision in force, an admitted write either found the slot free, repeats the
      digest of every occupant, or names the one and only occupant as its predecessor. */
  lemma AdmittedWritesFitTheSlot(intent: Intent, slot: set<Occupant>, enabled: set<Trigger>)
    requires SlotCollision in enabled && intent.claimKey.Some?
    requires Decide(intent, slot, enabled).disposition == Admitted
    ensures slot == {}
            || (forall o | o in slot :: o.digest == intent.digest)
            || (exists s :: intent.supersedes == Some(s) && Incumbents(slot) == {s})
  {
    if slot != {} && exists o | o in slot :: o.digest != intent.digest {
      var o :| o in slot;
      assert Undeclared(intent, slot) == {};
      forall p | p in slot ensures Some(p.id) == intent.supersedes {
        assert p !in Undeclared(intent, slot);
      }
      assert Incumbents(slot) == {o.id};
    }
  }

  // ---- what the gate decides, read off the fields ----

  ghost predicate SaysOtherwise(intent: Intent, slot: set<Occupant>) {
    exists o | o in slot :: o.digest != intent.digest
  }

  /** Some occupant was asserted strictly later than the write. */
  ghost predicate AssertedLater(intent: Intent, slot: set<Occupant>) {
    intent.assertedAt.Some? &&
    exists o | o in slot :: o.assertedAt.Some? && o.assertedAt.value > intent.assertedAt.value
  }

  /** Some occupant is not the one record the write declares to supersede. */
  ghost predicate LeavesUndeclared(intent: Intent, slot: set<Occupant>) {
    exists o | o in slot :: intent.supersedes.None? || intent.supersedes.value != o.id
  }

  /** Disposition, trigger and incumbents of every write. Contested is a keyed write that differs from an
      occupant and has sources, is older than an occupant, or leaves one undeclared; the first rule in that
      order that is enabled and met names the trigger. */
  lemma GateDecides(intent: Intent, slot: set<Occupant>, enabled: set<Trigger>)
    ensures var d := Decide(intent, slot, enabled);
            var judged := intent.claimKey.Some? && SaysOtherwise(intent, slot);
            var derived := Derived in enabled && |intent.derivedFrom| > 0;
            var later := Retrograde in enabled && AssertedLater(intent, slot);
            var collides := SlotCollision in enabled && LeavesUndeclared(intent, slot);
            && d.trigger == (if judged && derived then Some(Derived)
                             else if judged && later then Some(Retrograde)
                             else if judged && collides then Some(SlotCollision)
                             else None)
            && (d.disposition == Contested <==> judged && (derived || later || collides))
            && forall id :: id in d.incumbents <==> intent.claimKey.Some? && exists o | o in slot :: o.id == id
  {
    if AssertedLater(intent, slot) {
      var o :| o in slot && o.assertedAt.Some? && o.assertedAt.value > intent.assertedAt.value;
      assert o in NewerThan(intent, slot);
    } else {
      forall o | o in slot ensures o !in NewerThan(intent, slot) {}
    }
    if LeavesUndeclared(intent, slot) {
      var o :| o in slot && (intent.supersedes.None? || intent.supersedes.value != o.id);
      assert o in Undeclared(intent, slot);
    } else {
      forall o | o in slot ensures o !in Undeclared(intent, slot) {}
    }
  }

  /** The figures a verdict carries count just the sources, the later occupants or the undeclared ones. */
  lemma GateExplains(intent: Intent, slot: set<Occupant>, enabled: set<Trigger>, counted: set<Occupant>)
    ensures var d := Decide(intent, slot, enabled);
            && (d.trigger == Some(Derived) ==> d.detail == DerivedFromCount(|intent.derivedFrom|))
            && (d.trigger == Some(Retrograde) && intent.assertedAt.Some?
                && (forall o :: o in counted <==>
                      o in slot && o.assertedAt.Some? && o.assertedAt.value > intent.assertedAt.value)
                ==> d.detail == RetrogradeCount(|counted|, intent.assertedAt.value))
            && (d.trigger == Some(SlotCollision)
                && (forall o :: o in counted <==>
                      o in slot && (intent.supersedes.None? || intent.supersedes.value != o.id))
                ==> d.detail == UndeclaredCount(|counted|))
            && (d.detail.Corroboration? <==> intent.claimKey.Some? && slot != {} && !SaysOtherwise(intent, slot))
            && (d.detail.NoDetail? <==> intent.claimKey.None? || slot == {})
            && (d.detail.DeclaredSupersession? ==>
                  d.disposition == Admitted && (d.detail.declared <==> !LeavesUndeclared(intent, slot)))
  {
    GateDecides(intent, slot, enabled);
    if intent.assertedAt.Some? && forall o :: o in counted <==>
          o in slot && o.assertedAt.Some? && o.assertedAt.value > intent.assertedAt.value {
      assert counted == NewerThan(intent, slot);
    }
    if forall o :: o in counted <==>
          o in slot && (intent.supersedes.None? || intent.supersedes.value != o.id) {
      assert counted == Undeclared(intent, slot);
    }
    if LeavesUndeclared(intent, slot) {
      var o :| o in slot && (intent.supersedes.None? || intent.supersedes.value != o.id);
      assert o in Undeclared(intent, slot);
    } else {
      forall o | o in slot ensures o !in Undeclared(intent, slot) {}
    }
  }

  /** With the retrograde rule in force, an admitted keyed write repeats what the slot says, or no occupant
      was asserted later than it. */
  lemma NothingAdmittedBehindTime(intent: Intent, slot: set<Occupant>, enabled: set<Trigger>, o: Occupant)
    requires Retrograde in enabled && intent.claimKey.Some? && o in slot
    requires Decide(intent, slot, enabled).disposition == Admitted && SaysOtherwise(intent, slot)
    requires intent.assertedAt.Some? && o.assertedAt.Some?
    ensures o.assertedAt.value <= intent.assertedAt.value
  {
    GateDecides(intent, slot, enabled);
  }
}
