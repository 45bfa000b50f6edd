/** What each call judges, stores and answers, read off the fields of the tables. */
module CallEffects {
  // The other modules reason about the calls through the functions that perform them. Here those functions
  // are tied to the rows themselves.

  import opened Common
  import opened Contest
  import opened Ledger
  import opened LedgerInvariants

  // ---- who sees what ----

  /** A record bound by one caller is seen by another who shares what its scope asks for. */
  lemma ScopesBind(name: ScopeName, writer: Context, reader: Context)
    ensures NameOf(Bind(name, writer)) == name
    ensures CanAccess(reader, Bind(name, writer))
            <==> || name == GlobalScope
                 || (name == WorkspaceScope && reader.workspace == writer.workspace)
                 || (name == PrivateScope && reader.agent == writer.agent)
  {}

  /** An admitted record of the slot that no admitted record of the slot supersedes. */
  ghost predicate Occupies(m: Memories, key: Key, scope: Scope, b: Id) {
    && b in m && !m[b].contested && m[b].record.claimKey == Some(key) && m[b].record.scope == scope
    && forall x | x in m && !m[x].contested && m[x].record.claimKey == Some(key) && m[x].record.scope == scope ::
         m[x].record.supersedes != Some(b)
  }

  lemma OccupantsExact(m: Memories, key: Key, scope: Scope, b: Id)
    ensures b in SlotOccupants(m, key, scope) <==> Occupies(m, key, scope, b)
  {
    forall x | x in m && InSlot(m[x], key, scope) && m[x].record.supersedes == Some(b)
      ensures b in Displaced(m, key, scope)
    {
      assert m[x].record.supersedes.value == b;
    }
  }

  // ---- the verdict on a write ----

  function KeyOf(r: Request): Key { if r.claimKey.Some? then r.claimKey.value else 0 }

  /** Some other record in the slot of the write says something else. */
  ghost predicate Differs(env: Env, m: Memories, w: Write) {
    w.request.claimKey.Some? &&
    exists b :: Occupies(m, KeyOf(w.request), w.Scope(), b) && b != w.request.id
                && env.digest(m[b].record.content) != env.digest(w.request.content)
  }

  ghost predicate BehindTime(m: Memories, w: Write) {
    w.request.assertedAt.Some? &&
    exists b :: Occupies(m, KeyOf(w.request), w.Scope(), b) && b != w.request.id
                && m[b].record.assertedAt.Some?
                && m[b].record.assertedAt.value > w.request.assertedAt.value
  }

  ghost predicate Collides(m: Memories, w: Write) {
    exists b :: Occupies(m, KeyOf(w.request), w.Scope(), b) && b != w.request.id && w.request.supersedes != Some(b)
  }

  lemma SlotOf(env: Env, m: Memories, w: Write)
    requires w.request.claimKey.Some?
    ensures forall b :: Occupies(m, KeyOf(w.request), w.Scope(), b) && b != w.request.id <==>
              (b in m && Occupant(b, env.digest(m[b].record.content), m[b].record.assertedAt)
                         in OccupantsFor(env, m, KeyOf(w.request), w.Scope(), w.request.id))
    ensures forall o | o in OccupantsFor(env, m, KeyOf(w.request), w.Scope(), w.request.id) ::
              && o.id in m && o.digest == env.digest(m[o.id].record.content)
              && o.assertedAt == m[o.id].record.assertedAt
              && o == Occupant(o.id, env.digest(m[o.id].record.content), m[o.id].record.assertedAt)
  {
    forall b ensures b in SlotOccupants(m, KeyOf(w.request), w.Scope())
                     <==> Occupies(m, KeyOf(w.request), w.Scope(), b) {
      OccupantsExact(m, KeyOf(w.request), w.Scope(), b);
    }
  }

  lemma SlotSays(env: Env, m: Memories, w: Write)
    requires w.request.claimKey.Some?
    ensures var intent := IntentOf(env, w.request);
            var slot := OccupantsFor(env, m, KeyOf(w.request), w.Scope(), w.request.id);
            && (SaysOtherwise(intent, slot) <==> Differs(env, m, w))
            && (AssertedLater(intent, slot) <==> BehindTime(m, w))
            && (LeavesUndeclared(intent, slot) <==> Collides(m, w))
  {
    var intent := IntentOf(env, w.request);
    var slot := OccupantsFor(env, m, KeyOf(w.request), w.Scope(), w.request.id);
    SlotOf(env, m, w);
    if SaysOtherwise(intent, slot) {
      var o :| o in slot && o.digest != intent.digest;
      assert Occupies(m, KeyOf(w.request), w.Scope(), o.id);
    }
    if AssertedLater(intent, slot) {
      var o :| o in slot && o.assertedAt.Some? && o.assertedAt.value > intent.assertedAt.value;
      assert Occupies(m, KeyOf(w.request), w.Scope(), o.id);
    }
    if LeavesUndeclared(intent, slot) {
      var o :| o in slot && (intent.supersedes.None? || intent.supersedes.value != o.id);
      assert Occupies(m, KeyOf(w.request), w.Scope(), o.id);
    }
  }

  /** The verdict on every write, on the records as they are stored. */
  lemma WriteIsJudged(env: Env, m: Memories, w: Write)
    ensures var d := Judge(env, m, w);
            var derived := Derived in env.enabled && |w.request.derivedFrom| > 0;
            var later := Retrograde in env.enabled && BehindTime(m, w);
            var collides := SlotCollision in env.enabled && Collides(m, w);
            && d.trigger == (if Differs(env, m, w) && derived then Some(Derived)
                             else if Differs(env, m, w) && later then Some(Retrograde)
                             else if Differs(env, m, w) && collides then Some(SlotCollision)
                             else None)
            && (d.disposition == Contested <==> Differs(env, m, w) && (derived || later || collides))
            && (forall b :: b in d.incumbents <==>
                  w.request.claimKey.Some? && Occupies(m, KeyOf(w.request), w.Scope(), b) && b != w.request.id)
  {
    if w.request.claimKey.Some? {
      SlotOf(env, m, w);
      SlotSays(env, m, w);
      GateDecides(IntentOf(env, w.request), OccupantsFor(env, m, KeyOf(w.request), w.Scope(), w.request.id),
                  env.enabled);
    }
  }

  // ---- what a write leaves behind ----

  /** The stored row carries what was asked, by whom and when. */
  ghost predicate Recorded(row: Row, w: Write, disposition: Disposition, now: Time) {
    && row.record.content == w.request.content && row.record.claimKey == w.request.claimKey
    && row.record.supersedes == w.request.supersedes && row.record.assertedAt == w.request.assertedAt
    && row.record.derivedFrom == w.request.derivedFrom && row.record.scope == Bind(w.request.scope, w.ctx)
    && row.record.author == w.ctx.agent && row.record.createdAt == now
    && row.record.disposition == disposition && (row.contested <==> disposition == Contested)
  }

  ghost predicate Receipted(x: Receipt, env: Env, w: Write, d: Decision) {
    && x.recordId == w.request.id && x.claimKey == w.request.claimKey && x.agent == w.ctx.agent
    && x.digest == env.digest(w.request.content) && x.incumbents == d.incumbents
    && x.disposition == d.disposition && x.trigger == d.trigger && x.verdict == None
  }

  /** A contested write is counted into the earliest open entry of its key, scope and author, and opens one
      only if there is none; the receipt names the entry and the count it then has. */
  ghost predicate Filed(s: Store, s': Store, w: Write, d: Decision, c: ContestId, count: nat, now: Time) {
    && c in s'.contests
    && var e := s'.contests[c];
       && e.occurrences == count && e.resolution.None?
       && Some(e.claimKey) == w.request.claimKey && e.scope == w.Scope() && e.openedBy == w.ctx.agent
       && s'.contests.Keys == s.contests.Keys + {c}
       && (forall k | k in s.contests && k != c :: s'.contests[k] == s.contests[k])
       && (if c in s.contests then
             && e == s.contests[c].(occurrences := count) && count == s.contests[c].occurrences + 1
             && forall k | k in s.contests && s.contests[k].resolution.None? && s.contests[k].claimKey == e.claimKey
                           && s.contests[k].scope == e.scope && s.contests[k].openedBy == e.openedBy ::
                  e.openedAt < s.contests[k].openedAt || (e.openedAt == s.contests[k].openedAt && c <= k)
           else
             && count == 1 && e.recordId == w.request.id && e.openedAt == now && e.incumbents == d.incumbents
             && Some(e.trigger) == d.trigger
             && forall k | k in s.contests && s.contests[k].claimKey == e.claimKey && s.contests[k].scope == e.scope
                           && s.contests[k].openedBy == e.openedBy :: s.contests[k].resolution.Some?)
  }

  lemma EarliestIsChosen(s: Store, w: Write, c: ContestId)
    requires w.request.claimKey.Some?
    requires OpenContestForSlot(s.contests, w.request.claimKey.value, w.Scope(), w.ctx.agent) == Some(c)
    ensures c in s.contests && s.contests[c].resolution.None?
    ensures Against(s.contests[c], w.request.claimKey.value, w.Scope(), w.ctx.agent)
    ensures forall k | k in s.contests && s.contests[k].resolution.None?
                       && Against(s.contests[k], w.request.claimKey.value, w.Scope(), w.ctx.agent) ::
              Earlier(s.contests, c, k)
  {
    var open := OpenContests(s.contests, w.request.claimKey.value, w.Scope(), w.ctx.agent);
    assert EarliestOf(s.contests, open, c);
  }

  /** Everything a stored write changes. */
  ghost predicate Stores(env: Env, s: Store, s': Store, w: Write, d: Decision, newContest: ContestId, now: Time) {
    var id := w.request.id;
    && id !in s.memories && s'.memories.Keys == s.memories.Keys + {id}
    && Recorded(s'.memories[id], w, d.disposition, now)
    && (forall x | x in s.memories :: s'.memories[x] == s.memories[x])
    && (d.disposition == Admitted ==> s'.contests == s.contests)
    && (w.request.claimKey.None? ==> s'.receipts == s.receipts)
    && (w.request.claimKey.Some? ==>
          && |s'.receipts| == |s.receipts| + 1 && s.receipts == s'.receipts[..|s.receipts|]
          && var x := s'.receipts[|s.receipts|];
             && Receipted(x, env, w, d)
             && (d.disposition == Admitted ==> x.contestId.None? && x.occurrences == 1)
             && (d.disposition == Contested ==>
                   && x.contestId.Some? && (x.contestId.value in s.contests || x.contestId.value == newContest)
                   && Filed(s, s', w, d, x.contestId.value, x.occurrences, now)))
  }

  lemma ContestedIsFiled(env: Env, s: Store, w: Write, newContest: ContestId, now: Time)
    requires Remember(env, s, w, newContest, now).1.Stored? && Judge(env, s.memories, w).disposition == Contested
    ensures var s' := Remember(env, s, w, newContest, now).0;
            var d := Judge(env, s.memories, w);
            var into := Coalesce(s.contests, w, d);
            if into.Some? then
              into.value in s.contests && Filed(s, s', w, d, into.value, s.contests[into.value].occurrences + 1, now)
            else Filed(s, s', w, d, newContest, 1, now)
  {
    var into := Coalesce(s.contests, w, Judge(env, s.memories, w));
    if into.Some? { EarliestIsChosen(s, w, into.value); } else { NoneOpen(s, w); }
  }

  lemma RememberEffects(env: Env, s: Store, w: Write, newContest: ContestId, now: Time)
    ensures var (s', res) := Remember(env, s, w, newContest, now);
            && (res.Stored? ==>
                  var d := Judge(env, s.memories, w);
                  res.disposition == d.disposition && res.incumbents == d.incumbents
                  && Stores(env, s, s', w, d, newContest, now))
            && (!res.Stored? ==> s' == s)
  {
    if Remember(env, s, w, newContest, now).1.Stored? && Judge(env, s.memories, w).disposition == Contested {
      ContestedIsFiled(env, s, w, newContest, now);
    }
  }

  /** A write of an id already in use changes nothing. Asked for anew it is refused; otherwise the caller must see
      the record and repeat its content. */
  lemma RepeatedWrite(env: Env, s: Store, w: Write, newContest: ContestId, now: Time)
    requires w.request.id in s.memories
    ensures var (s', res) := Remember(env, s, w, newContest, now);
            var kept := s.memories[w.request.id].record;
            && s' == s
            && (w.createOnly ==> res == Refused(IdTaken))
            && (!w.createOnly && !CanAccess(w.ctx, kept.scope) ==> res == Refused(InaccessibleScope))
            && (res == Existing(kept.disposition) <==>
                  !w.createOnly && CanAccess(w.ctx, kept.scope) && kept.content == w.request.content)
  {}

  lemma NoneOpen(s: Store, w: Write)
    requires w.request.claimKey.Some?
    requires OpenContestForSlot(s.contests, w.request.claimKey.value, w.Scope(), w.ctx.agent).None?
    ensures forall k | k in s.contests && Against(s.contests[k], w.request.claimKey.value, w.Scope(), w.ctx.agent) ::
              s.contests[k].resolution.Some?
  {
    forall k | k in s.contests && Against(s.contests[k], w.request.claimKey.value, w.Scope(), w.ctx.agent)
      ensures s.contests[k].resolution.Some?
    {
      assert k !in OpenContests(s.contests, w.request.claimKey.value, w.Scope(), w.ctx.agent);
    }
  }

  /** A successor keeps the scope of its predecessor, and its key unless another is given. */
  lemma SupersedeEffects(env: Env, s: Store, ctx: Context, oldId: Id, r: SupersedeRequest, newContest: ContestId,
                         now: Time)
    requires Supersede(env, s, ctx, oldId, r, newContest, now).1.Stored?
    ensures oldId in s.memories && CanAccess(ctx, s.memories[oldId].record.scope)
    ensures var (s', res) := Supersede(env, s, ctx, oldId, r, newContest, now);
            var prior := s.memories[oldId].record;
            && r.id !in s.memories && s'.memories.Keys == s.memories.Keys + {r.id}
            && (forall x | x in s.memories :: s'.memories[x] == s.memories[x])
            && var row := s'.memories[r.id];
               && row.record.content == r.content && row.record.supersedes == Some(oldId)
               && row.record.scope == prior.scope && row.record.author == ctx.agent && row.record.createdAt == now
               && row.record.assertedAt == r.assertedAt && row.record.derivedFrom == r.derivedFrom
               && row.record.claimKey == (if r.claimKey.Some? then r.claimKey else prior.claimKey)
               && row.record.disposition == res.disposition && (row.contested <==> res.disposition == Contested)
  {
    var w := Write(SuccessorRequest(oldId, s.memories[oldId].record, r), ctx, true);
    RememberEffects(env, s, w, newContest, now);
    BindsBack(s.memories[oldId].record.scope, ctx);
  }

  lemma BindsBack(scope: Scope, ctx: Context)
    requires CanAccess(ctx, scope)
    ensures Bind(NameOf(scope), ctx) == scope
  {}

  // ---- what a resolution leaves behind ----

  /** The receipt of a resolution, whatever its verdict. */
  ghost predicate VerdictReceipted(x: Receipt, env: Env, s: Store, c: ContestId, r: Resolution)
    requires c in s.contests && s.contests[c].recordId in s.memories
  {
    var e, rec := s.contests[c], s.memories[s.contests[c].recordId].record;
    && x.recordId == e.recordId && x.contestId == Some(c) && x.agent == r.resolvedBy && x.verdict == Some(r.verdict)
    && x.claimKey == (if r.newKey.Some? then r.newKey else rec.claimKey)
    && x.digest == env.digest(rec.content) && x.incumbents == e.incumbents && x.trigger == Some(e.trigger)
    && x.occurrences == e.occurrences
    && (x.disposition == Admitted <==> r.verdict == Admit || r.verdict == Split)
  }

  /** A resolve call that succeeds closes its entry under the verdict, re-files entry and record under a new
      key if one is given, admits the record for the two admitting verdicts and for no other, leaves its
      content and every other field alone, and appends the receipt. */
  lemma ResolveEffects(env: Env, s: Store, ctx: Context, c: ContestId, r: Resolution, now: Time)
    requires Sound(s) && Resolve(env, s, ctx, c, r, now).1.Verdicted?
    ensures c in s.contests && s.contests[c].recordId in s.memories
    ensures var (s', res) := Resolve(env, s, ctx, c, r, now);
            var e, id := s.contests[c], s.contests[c].recordId;
            var rec := s.memories[id].record;
            var key := if r.newKey.Some? then r.newKey else rec.claimKey;
            var admits := r.verdict == Admit || r.verdict == Split;
            && e.resolution.None? && CanAccess(ctx, rec.scope)
            && c in s'.contests && s'.contests[c].resolution == Some(r.verdict)
            && s'.contests[c].recordId == id && s'.contests[c].occurrences >= e.occurrences
            && Some(s'.contests[c].claimKey) == key
            && id in s'.memories && s'.memories[id].contested == !admits
            && s'.memories[id].record
               == rec.(claimKey := key, disposition := if admits then Admitted else Contested)
            && |s'.receipts| > |s.receipts| && s.receipts == s'.receipts[..|s.receipts|]
            && VerdictReceipted(s'.receipts[|s'.receipts| - 1], env, s, c, r)
            && res.successor == (if r.verdict == AdmitSuperseding then Some(r.successor) else None)
            && (forall x | x in s.memories && x != id :: x in s'.memories && s'.memories[x] == s.memories[x])
  {
    var e := s.contests[c];
    assert EntrySound(s, e);
    if r.verdict == AdmitSuperseding {
      var content := ContestedContent(s.memories[e.recordId].record, r);
      SuccessorEffects(env, s, ctx, c, r, now);
    }
  }

  /** What the successor's write leaves of the rows the verdict is about. */
  lemma SuccessorEffects(env: Env, s: Store, ctx: Context, c: ContestId, r: Resolution, now: Time)
    requires Sound(s) && c in s.contests && s.contests[c].recordId in s.memories && r.incumbent.Some?
    ensures var content := ContestedContent(s.memories[s.contests[c].recordId].record, r);
            var s1 := Supersede(env, s, ctx, r.incumbent.value, content, r.successorContest, now).0;
            && (forall x | x in s.memories :: x in s1.memories && s1.memories[x] == s.memories[x])
            && c in s1.contests && s1.contests[c].(occurrences := 0) == s.contests[c].(occurrences := 0)
            && s1.contests[c].occurrences >= s.contests[c].occurrences
            && |s1.receipts| >= |s.receipts| && s.receipts == s1.receipts[..|s.receipts|]
  {
    var content := ContestedContent(s.memories[s.contests[c].recordId].record, r);
    var res := Supersede(env, s, ctx, r.incumbent.value, content, r.successorContest, now).1;
    if res.Stored? {
      var w := Write(SuccessorRequest(r.incumbent.value, s.memories[r.incumbent.value].record, content), ctx, true);
      RememberEffects(env, s, w, r.successorContest, now);
    }
  }

  /** A resolve call succeeds if and only if the entry is open, the caller sees its record, and what the verdict
      asks for is there: for a split a key nobody holds, for an admission as successor an incumbent that can
      be superseded. */
  lemma ResolveSucceedsIff(env: Env, s: Store, ctx: Context, c: ContestId, r: Resolution, now: Time)
    requires Sound(s)
    ensures Resolve(env, s, ctx, c, r, now).1.Verdicted?
            <==> && c in s.contests && s.contests[c].resolution.None?
                 && var rec := s.memories[s.contests[c].recordId].record;
                    && CanAccess(ctx, rec.scope)
                    && (r.verdict == Split ==>
                          r.newKey.Some? && forall b :: !Occupies(s.memories, r.newKey.value, rec.scope, b))
                    && (r.verdict == AdmitSuperseding ==>
                          && r.incumbent.Some?
                          && Supersede(env, s, ctx, r.incumbent.value, ContestedContent(rec, r),
                                       r.successorContest, now).1.Stored?)
  {
    if c in s.contests {
      assert EntrySound(s, s.contests[c]);
      var rec := s.memories[s.contests[c].recordId].record;
      if r.newKey.Some? { NobodyHolds(s.memories, r.newKey.value, rec.scope); }
      if r.incumbent.Some? {
        SuccessorEffects(env, s, ctx, c, r, now);
        SupersedeAnswers(env, s, ctx, r.incumbent.value, ContestedContent(rec, r), r.successorContest, now);
      }
    }
  }

  lemma NobodyHolds(m: Memories, key: Key, scope: Scope)
    ensures SlotOccupants(m, key, scope) == {} <==> forall b :: !Occupies(m, key, scope, b)
  {
    forall b { OccupantsExact(m, key, scope, b); }
  }

  lemma SupersedeAnswers(env: Env, s: Store, ctx: Context, oldId: Id, r: SupersedeRequest, newContest: ContestId,
                         now: Time)
    ensures var res := Supersede(env, s, ctx, oldId, r, newContest, now).1; res.Stored? || res.Refused?
  {}

  // ---- lineage ----

  /** One of the two declares that it supersedes the other. */
  ghost predicate Joined(m: Memories, a: Id, b: Id) {
    a in m && b in m && (m[a].record.supersedes == Some(b) || m[b].record.supersedes == Some(a))
  }

  /** Admitted records the caller may see, each joined to the one before. */
  ghost predicate LinkPath(m: Memories, ctx: Context, path: seq<Id>) {
    && path != []
    && (forall i | 0 <= i < |path| ::
          path[i] in m && !m[path[i]].contested && CanAccess(ctx, m[path[i]].record.scope))
    && (forall i | 0 < i < |path| :: Joined(m, path[i - 1], path[i]))
  }

  ghost predicate PathBetween(m: Memories, ctx: Context, root: Id, x: Id, depth: nat, path: seq<Id>) {
    LinkPath(m, ctx, path) && path[0] == root && path[|path| - 1] == x && |path| <= depth + 1
  }

  lemma {:induction false} LineageHasPath(m: Memories, ctx: Context, root: Id, depth: nat, x: Id)
      returns (path: seq<Id>)
    requires x in Lineage(m, ctx, root, depth)
    ensures PathBetween(m, ctx, root, x, depth, path)
  {
    if depth == 0 {
      path := [x];
    } else {
      var near := Lineage(m, ctx, root, depth - 1);
      if x in near {
        path := LineageHasPath(m, ctx, root, depth - 1, x);
      } else {
        var p :| p in near && x in m && Visible(m, ctx, x) && Linked(m, p, x);
        var before := LineageHasPath(m, ctx, root, depth - 1, p);
        path := before + [x];
        forall i | 0 < i < |path| ensures Joined(m, path[i - 1], path[i]) {
          if i < |before| { assert path[i - 1] == before[i - 1] && path[i] == before[i]; }
        }
      }
    }
  }

  lemma {:induction false} PathIsInLineage(m: Memories, ctx: Context, root: Id, depth: nat, x: Id, path: seq<Id>)
    requires PathBetween(m, ctx, root, x, depth, path)
    ensures x in Lineage(m, ctx, root, depth)
    decreases depth
  {
    if depth > 0 {
      var near := Lineage(m, ctx, root, depth - 1);
      if |path| <= depth {
        PathIsInLineage(m, ctx, root, depth - 1, x, path);
      } else {
        var p := path[|path| - 2];
        assert PathBetween(m, ctx, root, p, depth - 1, path[..|path| - 1]);
        PathIsInLineage(m, ctx, root, depth - 1, p, path[..|path| - 1]);
        assert p in near && Joined(m, p, x) && Linked(m, p, x);
      }
    }
  }

  /** A lineage holds exactly the visible admitted records that declared links join to the root, in either
      direction and through visible admitted records only, within the depth. */
  lemma LineageExact(m: Memories, ctx: Context, root: Id, depth: nat, x: Id)
    ensures x in Lineage(m, ctx, root, depth) <==> exists path :: PathBetween(m, ctx, root, x, depth, path)
  {
    if x in Lineage(m, ctx, root, depth) {
      var path := LineageHasPath(m, ctx, root, depth, x);
    }
    if path :| PathBetween(m, ctx, root, x, depth, path) {
      PathIsInLineage(m, ctx, root, depth, x, path);
    }
  }
}
