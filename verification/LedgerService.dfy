/** The repository and the application as the program has them:
    objects that read their tables, branch, and assign.

    Every method is tied to the value-level transaction it performs. */
module LedgerService {
  import opened Common
  import opened Contest
  import opened Ledger
  import opened LedgerInvariants
  import AtomicRuns

  /** The three ledger tables of SQLiteMemoryRepository. */
  class MemoryRepository {
    var memories: Memories
    var contests: map<ContestId, Entry>
    var receipts: seq<Receipt>

    function Contents(): Store
      reads this
    {
      Store(memories, contests, receipts)
    }

    constructor ()
      ensures Contents() == EMPTY_STORE
    {
      memories, contests, receipts := map[], map[], [];
    }

    method WriteLedgerRows(ledger: LedgerWrite)
      modifies this`contests, this`receipts
      ensures Contents() == Ledger.WriteLedgerRows(old(Contents()), ledger)
    {
      if ledger.contest.Some? {
        var (contestId, entry) := ledger.contest.value;
        contests := contests[contestId := entry];
      } else if ledger.coalesced.Some? {
        var contestId := ledger.coalesced.value;
        if contestId in contests && contests[contestId].resolution.None? {
          var entry := contests[contestId];
          contests := contests[contestId := entry.(occurrences := entry.occurrences + 1)];
        }
      }
      receipts := receipts + [ledger.receipt];
    }

    /** The insert itself; a violated entry constraint rolls the whole transaction back. */
    method InsertRow(id: Id, record: Record, ledger: Option<LedgerWrite>) returns (outcome: Outcome)
      modifies this
      ensures (Contents(), outcome) == Insert(old(Contents()), id, record, ledger)
    {
      if ledger.Some? && !LedgerKeysFree(Contents(), ledger.value) {
        return LedgerKeyTaken;
      }
      memories := memories[id := Row(record, record.disposition == Contested)];
      if ledger.Some? {
        WriteLedgerRows(ledger.value);
      }
      outcome := Created;
    }

    method StoreIfContentUnchanged(id: Id, record: Record, ledger: Option<LedgerWrite>) returns (outcome: Outcome)
      modifies this
      ensures (Contents(), outcome) == Ledger.StoreIfContentUnchanged(old(Contents()), id, record, ledger)
      ensures Keeps(old(Contents()), Contents())
    {
      if id !in memories { InsertKeeps(Contents(), id, record, ledger); }
      if id in memories {
        var retained := memories[id].record;
        if retained.content != record.content {
          return ContentConflict;
        }
        return Retained(retained);
      }
      outcome := InsertRow(id, record, ledger);
    }

    method StoreNew(id: Id, record: Record, ledger: Option<LedgerWrite>) returns (outcome: Outcome)
      modifies this
      ensures (Contents(), outcome) == Ledger.StoreNew(old(Contents()), id, record, ledger)
      ensures Keeps(old(Contents()), Contents())
    {
      if id !in memories { InsertKeeps(Contents(), id, record, ledger); }
      if id in memories {
        return IdInUse;
      }
      outcome := InsertRow(id, record, ledger);
    }

    method ResolveContest(contestId: ContestId, verdict: Verdict, newKey: Option<Key>, receipt: Receipt)
      returns (outcome: ResolveOutcome)
      modifies this
      ensures (Contents(), outcome) == CommitResolution(old(Contents()), contestId, verdict, newKey, receipt)
      ensures receipt.verdict.Some? ==> KeepsHealth(old(Contents()), Contents())
    {
      if receipt.verdict.Some? { ResolutionKeepsHealth(Contents(), contestId, verdict, newKey, receipt); }
      if contestId !in contests {
        return NoSuchContest;
      }
      var entry := contests[contestId];
      if entry.resolution.Some? {
        return AlreadyResolved;
      }
      if Admits(verdict) || newKey.Some? {
        if entry.recordId !in memories {
          return RecordMissing;
        }
        memories := memories[entry.recordId := ApplyResolution(memories[entry.recordId], Admits(verdict), newKey)];
      }
      if newKey.Some? {
        entry := entry.(claimKey := newKey.value);
      }
      contests := contests[contestId := entry.(resolution := Some(verdict))];
      receipts := receipts + [receipt];
      outcome := Resolved;
    }
  }

  /** AOMSApplication bound to one caller context. */
  class Application {
    const repository: MemoryRepository
    const context: Context
    const env: Env

    constructor (repository: MemoryRepository, context: Context, env: Env)
      ensures this.repository == repository && this.context == context && this.env == env
    {
      this.repository, this.context, this.env := repository, context, env;
    }

    method Adjudicate(w: Write) returns (decision: Decision, into: Option<ContestId>)
      ensures decision == Judge(env, repository.memories, w)
      ensures into == Coalesce(repository.contests, w, decision)
    {
      if w.request.claimKey.None? {
        return Decision(Admitted, None, {}, NoDetail), None;
      }
      var key := w.request.claimKey.value;
      decision := Decide(IntentOf(env, w.request),
                         OccupantsFor(env, repository.memories, key, w.Scope(), w.request.id), env.enabled);
      if decision.disposition == Admitted {
        return decision, None;
      }
      into := OpenContestForSlot(repository.contests, key, w.Scope(), w.ctx.agent);
    }

    method RememberWrite(request: Request, createOnly: bool, newContest: ContestId, now: Time) returns (result: Result)
      modifies repository
      ensures (repository.Contents(), result)
              == Remember(env, old(repository.Contents()), Write(request, context, createOnly), newContest, now)
      ensures KeepsHealth(old(repository.Contents()), repository.Contents())
    {
      RememberKeepsHealth(env, repository.Contents(), Write(request, context, createOnly), newContest, now);
      var w := Write(request, context, createOnly);
      if request.id in repository.memories {
        var existing := repository.memories[request.id].record;
        if createOnly {
          return Refused(IdTaken);
        }
        if !CanAccess(context, existing.scope) {
          return Refused(InaccessibleScope);
        }
        if existing.content != request.content {
          return Refused(ChangedContent);
        }
        return Existing(existing.disposition);
      }
      var decision, into := Adjudicate(w);
      var record := BuildRecord(w, decision, now);
      var seen := if into.Some? then repository.contests[into.value].occurrences else 0;
      var ledger := BuildLedger(env, w, decision, into, seen, newContest, now);
      var outcome;
      if createOnly {
        outcome := repository.StoreNew(request.id, record, ledger);
      } else {
        outcome := repository.StoreIfContentUnchanged(request.id, record, ledger);
      }
      result := if outcome.Created? then Stored(decision.disposition, decision.incumbents) else Refused(LedgerRefused);
    }

    method SupersedeRecord(oldId: Id, request: SupersedeRequest, newContest: ContestId, now: Time)
        returns (result: Result)
      modifies repository
      ensures (repository.Contents(), result)
              == Supersede(env, old(repository.Contents()), context, oldId, request, newContest, now)
      ensures KeepsHealth(old(repository.Contents()), repository.Contents())
    {
      SupersedeKeepsHealth(env, repository.Contents(), context, oldId, request, newContest, now);
      if oldId !in repository.memories {
        return Refused(NotFound);
      }
      var prior := repository.memories[oldId].record;
      if !CanAccess(context, prior.scope) {
        return Refused(InaccessibleScope);
      }
      if DirectSuccessors(repository.memories, context, oldId) != {} {
        return Refused(NotHead);
      }
      if request.id in repository.memories {
        return Refused(IdTaken);
      }
      result := RememberWrite(SuccessorRequest(oldId, prior, request), true, newContest, now);
    }

    method ResolveContest(contestId: ContestId, r: Resolution, now: Time) returns (result: Result)
      modifies repository
      ensures (repository.Contents(), result)
              == Resolve(env, old(repository.Contents()), context, contestId, r, now)
      ensures KeepsHealth(old(repository.Contents()), repository.Contents())
    {
      AtomicRuns.ResolveKeepsHealth(env, repository.Contents(), context, contestId, r, now);
      if contestId !in repository.contests || repository.contests[contestId].recordId !in repository.memories {
        return Refused(NotFound);
      }
      var entry := repository.contests[contestId];
      var contested := repository.memories[entry.recordId].record;
      if !CanAccess(context, contested.scope) {
        return Refused(InaccessibleScope);
      }
      var successor := None;
      match r.verdict {
        case AdmitSuperseding =>
          if r.incumbent.None? {
            return Refused(NeedsIncumbent);
          }
          var stored := SupersedeRecord(r.incumbent.value, ContestedContent(contested, r), r.successorContest, now);
          if stored.Refused? {
            return stored;
          }
          successor := Some(r.successor);
        case Split =>
          if r.newKey.None? {
            return Refused(NeedsKey);
          }
          if SlotOccupants(repository.memories, r.newKey.value, contested.scope) != {} {
            return Refused(KeyHeld);
          }
        case Admit =>
        case SetAside =>
      }
      var receipt := ResolutionReceipt(env, contestId, entry, contested, r.resolvedBy, r.verdict, r.newKey);
      var outcome := repository.ResolveContest(contestId, r.verdict, r.newKey, receipt);
      result := if outcome.Resolved? then Verdicted(successor) else Refused(ContestClosed);
    }
  }
}
