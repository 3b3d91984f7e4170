/** What one step of the service does to one record and to its commitment. */
module Frames {
  import opened Texts
  import opened Jsons
  import opened Wrappers
  import opened AuditLog
  import opened ChainVerification
  import opened Hashing
  import opened System
  import opened Invariants

  /** The step is no part of a redaction of this record. */
  predicate Leaves(step: Step, id: int) {
    match step
    case RedactStep(x, _, _, _, _) => x != id
    case CompleteStep(x, _) => x != id
    case CrashStep(x) => x != id
    case _ => true
  }

  lemma AppendCommitment(d: Digests, s: State, request: Request, timestamp: int, id: int)
    ensures Commitment(d.content, Append(d, s, request, timestamp).rows, id) ==
              if request.eventType == REDACTION_EVENT_TYPE && DeclaredBy(request.payload).Names?
                 && DeclaredBy(request.payload).target == id
              then Some(DeclaredBy(request.payload).commitment) else Commitment(d.content, s.rows, id)
  {
    CommitmentAppend(d.content, s.rows, NewRow(d.content, s.nextId, NewContent(s.rows, request, timestamp)), id);
  }

  lemma SubmitCommitment(d: Digests, s: State, call: Call, timestamp: int, id: int)
    requires call.request.eventType != REDACTION_EVENT_TYPE
    ensures Commitment(d.content, Submit(d, s, call, timestamp).rows, id) == Commitment(d.content, s.rows, id)
  {
    AppendCommitment(d, s, call.request, timestamp, id);
    SubmitShape(d, s, call, timestamp);
  }

  lemma CompletionCommitment(d: Digests, s: State, x: int, timestamp: int, id: int)
    requires x in s.live
    ensures Commitment(d.content, SecondCommit(d, s, x, timestamp).rows, id) ==
              if x == id then Some(Some(s.live[x].contentHash)) else Commitment(d.content, s.rows, id)
  {
    CompanionDeclares(x, s.live[x]);
    AppendCommitment(d, s, CompanionRequest(x, s.live[x]), timestamp, id);
  }

  lemma RedactionCommitment(d: Digests, s: State, k: nat, fields: seq<Text>, actorId: Text, reason: Option<Text>,
                            now: int, id: int)
    requires k < |s.rows| && EventType(s.rows[k]) != REDACTION_EVENT_TYPE
    requires forall f :: f in fields ==> HasKey(Payload(s.rows[k]), f)
    ensures Commitment(d.content, FirstCommit(d, s, k, fields, actorId, reason, now).rows, id)
            == Commitment(d.content, s.rows, id)
  {
    FirstCommitTouches(d, s, k, fields, actorId, reason, now);
    TouchedKeepsCommitment(d.content, s.rows, FirstCommit(d, s, k, fields, actorId, reason, now).rows, id);
  }

  lemma ArchivingCommitment(d: Digests, s: State, cutoff: int, now: int, id: int)
    requires Inv(d, s)
    ensures Commitment(d.content, ArchiveRows(s.rows, cutoff, now), id) == Commitment(d.content, s.rows, id)
  {
    ArchiveKeepsInv(d, s, cutoff, now);
    TouchedKeepsCommitment(d.content, s.rows, ArchiveRows(s.rows, cutoff, now), id);
  }

  /** Only the second commit of a redaction of a record changes what the record is committed to. */
  lemma StepCommitment(d: Digests, s: State, step: Step, id: int)
    requires Inv(d, s) && Enabled(d, s, step)
    ensures Commitment(d.content, Apply(d, s, step).rows, id) ==
              if step.CompleteStep? && step.id == id then Some(Some(s.live[id].contentHash))
              else Commitment(d.content, s.rows, id)
  {
    match step {
      case SubmitStep(call, timestamp) => SubmitCommitment(d, s, call, timestamp, id);
      case RedactStep(x, fields, actorId, reason, now) =>
        var k := Find(s.rows, x).value;
        RedactionCommitment(d, s, k, NewFields(s.rows[k], fields), actorId, reason, now, id);
      case CompleteStep(x, timestamp) => CompletionCommitment(d, s, x, timestamp, id);
      case ArchiveStep(cutoff, now) => ArchivingCommitment(d, s, cutoff, now, id);
      case _ =>
    }
  }

  /** Only the first commit of a redaction of a record changes more of it than its archive stamp. */
  lemma StepRow(d: Digests, s: State, step: Step, i: nat)
    requires Inv(d, s) && Enabled(d, s, step) && i < |s.rows|
    ensures var t := Apply(d, s, step);
            && i < |t.rows|
            && (if step.RedactStep? && step.id == s.rows[i].id
                then t.rows[i] == RedactRow(d, s.rows[i], NewFields(s.rows[i], step.fields), step.now)
                else t.rows[i] == s.rows[i].(archivedAt := t.rows[i].archivedAt))
  {
    FindAt(s.rows, i);
    match step {
      case SubmitStep(call, timestamp) => SubmitShape(d, s, call, timestamp);
      case _ =>
    }
  }

  /** A step that leaves a record alone neither opens nor closes a redaction of it. */
  lemma StepGap(d: Digests, s: State, step: Step, id: int)
    requires Enabled(d, s, step) && Leaves(step, id)
    ensures var t := Apply(d, s, step);
            (id in t.live <==> id in s.live) && (id in t.stuck <==> id in s.stuck)
  {
    match step {
      case SubmitStep(call, timestamp) => SubmitShape(d, s, call, timestamp);
      case _ =>
    }
  }
}
