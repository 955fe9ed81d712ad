/** The webhook handler and its goroutine as straight-line code over Redis and the
    tables, tied to the step machine of module Webhook run without interruption. */
module Backend {
  import opened Money
  import opened Wrappers
  import opened Webhook

  function Rank(at: Stage): nat {
    match at
    case Dedup => 8
    case ClaimExt => 7
    case MarkSuccess => 6
    case MarkFailed => 1
    case Load => 5
    case StartSession(_) => 4
    case RecordPayment(_) => 3
    case FindReferral(_, _, _) => 2
    case RecordCommission(_) => 1
    case Done(_) => 0
  }

  /** A task run to its end with nothing else happening. */
  function Finish(c: Catalog, sh: Shared, t: Task): (r: (Shared, Task))
    ensures r.1.at.Done? && r.1.w == t.w
    decreases Rank(t.at)
  {
    if t.at.Done? then (sh, t)
    else
      var (sh', t') := Exec(c, sh, t);
      Finish(c, sh', t')
  }

  lemma Unfold(c: Catalog, sh: Shared, t: Task, sh': Shared, t': Task)
    requires !t.at.Done? && Exec(c, sh, t) == (sh', t')
    ensures Finish(c, sh, t) == Finish(c, sh', t')
    ensures t'.at.Done? ==> Finish(c, sh, t) == (sh', t')
  {
  }

  function Handle(c: Catalog, sh: Shared, w: Webhook): Shared {
    Finish(c, sh, Task(w, Dedup)).0
  }

  // ----- what a delivery writes, table by table

  predicate SessionAdded(c: Catalog, w: Webhook, v: Pending, before: seq<SessionRow>, after: seq<SessionRow>) {
    && |after| == |before| + 1 && after[..|before|] == before
    && var row := after[|before|];
       && row.ext == w.ext && row.username == w.phone && row.slug == v.slug && row.mac == v.mac
       && Lasts(c, v.plan, row.mins)
  }

  predicate PaymentAdded(c: Catalog, w: Webhook, v: Pending, before: seq<PaymentRow>, after: seq<PaymentRow>) {
    && |after| == |before| + 1 && after[..|before|] == before
    && var row := after[|before|];
       && row.ext == Some(w.ext) && row.zref == (if v.zengapayRef == "" then None else Some(v.zengapayRef))
       && row.phone == w.phone && row.slug == v.slug && Costs(c, v.plan, row.amount)
  }

  /** The commission of this payment, if one is due and none is there. */
  predicate CommissionAdded(c: Catalog, payment: nat, slug: string, amount: int, before: seq<CommissionRow>,
      after: seq<CommissionRow>) {
    if slug in c.locations && c.locations[slug] in c.referrals && 34 <= amount
         && forall k :: 0 <= k < |before| ==> before[k].payment != payment then
      && |after| == |before| + 1 && after[..|before|] == before
      && after[|before|].payment == payment && OwedTo(c, slug, amount, after[|before|])
    else after == before
  }

  /** Some confirmed payment carries this payment id or this reference already. */
  predicate Recorded(payments: seq<PaymentRow>, ext: string, zref: string) {
    exists p :: 0 <= p < |payments| && (payments[p].ext == Some(ext) || (zref != "" && payments[p].zref == Some(zref)))
  }

  predicate SessionStored(c: Catalog, w: Webhook, v: Pending, before: Shared, after: Shared) {
    if v.slug in c.locations && |w.phone| <= 20 && |v.mac| <= 17
    then SessionAdded(c, w, v, before.sessions, after.sessions)
    else after.sessions == before.sessions
  }

  predicate PaymentStored(c: Catalog, w: Webhook, v: Pending, before: Shared, after: Shared, o: Outcome) {
    if v.slug in c.locations && |w.phone| <= 20 && |v.zengapayRef| <= 255
         && !Recorded(before.payments, w.ext, v.zengapayRef) then
      && o == Paid(|before.payments|)
      && PaymentAdded(c, w, v, before.payments, after.payments)
      && CommissionAdded(c, |before.payments|, v.slug, after.payments[|before.payments|].amount,
                         before.commissions, after.commissions)
    else o == NotRecorded && after.payments == before.payments && after.commissions == before.commissions
  }

  /** A grant: the session if it fits its columns, and, independently, the payment if it fits and
      is not recorded yet, with its commission. */
  predicate GrantWrites(c: Catalog, w: Webhook, v: Pending, before: Shared, after: Shared, o: Outcome) {
    SessionStored(c, w, v, before, after) && PaymentStored(c, w, v, before, after, o)
  }

  class Store {
    const c: Catalog
    var dedup: set<string>
    var claims: set<string>
    var pending: map<string, Pending>
    var sessions: seq<SessionRow>
    var payments: seq<PaymentRow>
    var commissions: seq<CommissionRow>

    function Value(): Shared
      reads this
    {
      Shared(dedup, claims, pending, sessions, payments, commissions)
    }

    constructor (c: Catalog)
      ensures this.c == c && Value() == INITIAL.sh
    {
      this.c := c;
      dedup, claims, pending, sessions, payments, commissions := {}, {}, map[], [], [], [];
    }

    method SetNXRef(ref: string) returns (set': bool)
      modifies this`dedup
      ensures set' == (ref !in old(dedup)) && dedup == old(dedup) + {ref}
    {
      set' := ref !in dedup;
      dedup := dedup + {ref};
    }

    method SetNXExt(ext: string) returns (set': bool)
      modifies this`claims
      ensures set' == (ext !in old(claims)) && claims == old(claims) + {ext}
    {
      set' := ext !in claims;
      claims := claims + {ext};
    }

    /** The webhook handler, its goroutine included: the outcome and the whole new state are
        those of the protocol's steps taken in a row. */
    method ZengapayWebhook(ref: string, ext: string, status: string, event: string, phone: string) returns (o: Outcome)
      modifies this
      ensures var w := Webhook(ref, ext, ClassifyEvent(status, event), phone);
              (Value(), Task(w, Done(o))) == Finish(c, old(Value()), Task(w, Dedup))
      ensures dedup == old(dedup) + {ref}
      ensures var acts := ref !in old(dedup) && ext != "";
              var verdict := ClassifyEvent(status, event);
              var hash := if ext in old(pending) then old(pending)[ext] else Pending("", "", "", "", "");
              var paid := hash.(status := "successful", zengapayRef := ref);
              if acts && verdict == Success && ext !in old(claims) then
                && claims == old(claims) + {ext} && pending == old(pending)[ext := paid]
                && GrantWrites(c, Webhook(ref, ext, Success, phone), paid, old(Value()), Value(), o)
              else
                && claims == old(claims)
                && sessions == old(sessions) && payments == old(payments) && commissions == old(commissions)
                && pending == (if acts && verdict == Failed then old(pending)[ext := hash.(status := "failed")]
                               else old(pending))
                && o == (if ref in old(dedup) then Duplicate
                         else if ext == "" then NoReference
                         else if verdict == Success then AlreadyClaimed
                         else if verdict == Failed then MarkedFailed
                         else NotActionable)
    {
      var w := Webhook(ref, ext, ClassifyEvent(status, event), phone);
      ghost var sh0 := Value();
      var unseen := SetNXRef(w.ref);
      if !unseen {
        assert dedup == old(dedup);
        Unfold(c, sh0, Task(w, Dedup), Value(), Task(w, Done(Duplicate)));
        return Duplicate;
      }
      ghost var sh1 := Value();
      if w.ext == "" {
        Unfold(c, sh0, Task(w, Dedup), sh1, Task(w, Done(NoReference)));
        return NoReference;
      }
      match w.verdict {
        case Success =>
          Unfold(c, sh0, Task(w, Dedup), sh1, Task(w, ClaimExt));
          var claimed := SetNXExt(w.ext);
          if !claimed {
            assert claims == old(claims);
            Unfold(c, sh1, Task(w, ClaimExt), sh1, Task(w, Done(AlreadyClaimed)));
            return AlreadyClaimed;
          }
          ghost var sh2 := Value();
          Unfold(c, sh1, Task(w, ClaimExt), sh2, Task(w, MarkSuccess));
          pending := pending[w.ext :=
            (if w.ext in pending then pending[w.ext] else EMPTY_HASH).(status := "successful", zengapayRef := w.ref)];
          Unfold(c, sh2, Task(w, MarkSuccess), Value(), Task(w, Load));
          o := CreateSessionAfterPayment(w);
        case Failed =>
          Unfold(c, sh0, Task(w, Dedup), sh1, Task(w, MarkFailed));
          pending := pending[w.ext := (if w.ext in pending then pending[w.ext] else EMPTY_HASH).(status := "failed")];
          Unfold(c, sh1, Task(w, MarkFailed), Value(), Task(w, Done(MarkedFailed)));
          o := MarkedFailed;
        case Ignored =>
          Unfold(c, sh0, Task(w, Dedup), sh1, Task(w, Done(NotActionable)));
          o := NotActionable;
      }
    }

    method CreateSessionAfterPayment(w: Webhook) returns (o: Outcome)
      modifies this`sessions, this`payments, this`commissions
      ensures (Value(), Task(w, Done(o))) == Finish(c, old(Value()), Task(w, Load))
      ensures if w.ext in pending then GrantWrites(c, w, pending[w.ext], old(Value()), Value(), o)
              else o == NothingPending && Value() == old(Value())
    {
      ghost var sh0 := Value();
      if w.ext !in pending {
        Unfold(c, sh0, Task(w, Load), sh0, Task(w, Done(NothingPending)));
        return NothingPending;
      }
      var vals := pending[w.ext];
      var plan := PlanOf(c, vals.plan);
      Unfold(c, sh0, Task(w, Load), sh0, Task(w, StartSession(vals)));
      InsertSession(w, vals, plan);
      Unfold(c, sh0, Task(w, StartSession(vals)), Value(), Task(w, RecordPayment(vals)));
      o := InsertPayment(w, vals, plan);
    }

    method InsertSession(w: Webhook, vals: Pending, plan: Plan)
      requires plan == PlanOf(c, vals.plan)
      modifies this`sessions
      ensures SessionStored(c, w, vals, old(Value()), Value())
      ensures (Value(), Task(w, RecordPayment(vals))) == Exec(c, old(Value()), Task(w, StartSession(vals)))
    {
      PlanMatches(c, vals.plan);
      if SessionFits(c, w.phone, vals) {
        sessions := sessions + [SessionRow(w.ext, w.phone, vals.slug, vals.mac, plan.mins)];
      }
    }

    /** The guarded insert, and the commission of the row it wrote. */
    method InsertPayment(w: Webhook, vals: Pending, plan: Plan) returns (o: Outcome)
      requires plan == PlanOf(c, vals.plan)
      modifies this`payments, this`commissions
      ensures PaymentStored(c, w, vals, old(Value()), Value(), o)
      ensures (Value(), Task(w, Done(o))) == Finish(c, old(Value()), Task(w, RecordPayment(vals)))
    {
      ghost var sh0 := Value();
      PlanMatches(c, vals.plan);
      var zref := if vals.zengapayRef == "" then None else Some(vals.zengapayRef);
      var row := PaymentRow(Some(w.ext), zref, w.phone, vals.slug, plan.price);
      if !PaymentFits(c, w.phone, vals) || HasConfirmed(Value(), w.ext) || HasZref(Value(), row.zref) {
        Unfold(c, sh0, Task(w, RecordPayment(vals)), sh0, Task(w, Done(NotRecorded)));
        return NotRecorded;
      }
      var id := |payments|;
      payments := payments + [row];
      Unfold(c, sh0, Task(w, RecordPayment(vals)), Value(), Task(w, FindReferral(id, vals.slug, plan.price)));
      CreateAgentCommission(w, vals.slug, id, plan.price);
      o := Paid(id);
    }

    method CreateAgentCommission(ghost w: Webhook, slug: string, payment: nat, amount: int)
      modifies this`commissions
      ensures CommissionAdded(c, payment, slug, amount, old(commissions), commissions)
      ensures (Value(), Task(w, Done(Paid(payment))))
                == Finish(c, old(Value()), Task(w, FindReferral(payment, slug, amount)))
    {
      DueIffOwed(c, payment, slug, amount);
      ghost var start := Task(w, FindReferral(payment, slug, amount));
      ghost var sh0 := Value();
      if slug !in c.locations || c.locations[slug] !in c.referrals {
        Unfold(c, sh0, start, sh0, Task(w, Done(Paid(payment))));
        return;
      }
      var commission := AgentCommission(amount, AGENT_COMMISSION_RATE);
      if commission == 0 {
        Unfold(c, sh0, start, sh0, Task(w, Done(Paid(payment))));
        return;
      }
      var row := CommissionRow(c.referrals[c.locations[slug]], c.locations[slug], payment, commission);
      Unfold(c, sh0, start, sh0, Task(w, RecordCommission(row)));
      if !HasCommission(Value(), payment) {
        commissions := commissions + [row];
      }
      Unfold(c, sh0, Task(w, RecordCommission(row)), Value(), Task(w, Done(Paid(payment))));
    }
  }

  // ----- retries, run one after another

  /** The Redis claims only grow, and every delivery leaves its reference behind. */
  lemma {:induction false} FinishKeepsClaims(c: Catalog, sh: Shared, t: Task)
    ensures var (sh', t') := Finish(c, sh, t);
            && sh.dedup <= sh'.dedup && sh.claims <= sh'.claims
            && (t.at.Dedup? ==> t.w.ref in sh'.dedup)
    decreases Rank(t.at)
  {
    if !t.at.Done? {
      var (sh1, t1) := Exec(c, sh, t);
      FinishKeepsClaims(c, sh1, t1);
    }
  }

  lemma SeenReferenceIsDropped(c: Catalog, sh: Shared, w: Webhook)
    requires w.ref in sh.dedup
    ensures Handle(c, sh, w) == sh
  {
    Unfold(c, sh, Task(w, Dedup), sh, Task(w, Done(Duplicate)));
  }

  /** A second delivery of a reference changes nothing at all. */
  lemma RetryIsIdempotent(c: Catalog, sh: Shared, w: Webhook, again: Webhook)
    requires again.ref == w.ref
    ensures Handle(c, Handle(c, sh, w), again) == Handle(c, sh, w)
  {
    FinishKeepsClaims(c, sh, Task(w, Dedup));
    SeenReferenceIsDropped(c, Handle(c, sh, w), again);
  }

  /** After a success for a payment id, another success for it under any other reference
      leaves sessions, payments, commissions and the payment hash as they are. */
  lemma SecondSuccessChangesNothing(c: Catalog, sh: Shared, w: Webhook, again: Webhook)
    requires IsSuccess(w) && IsSuccess(again) && again.ext == w.ext && w.ref !in sh.dedup
    ensures var once := Handle(c, sh, w);
            Handle(c, once, again) == once.(dedup := once.dedup + {again.ref})
  {
    var sh1 := sh.(dedup := sh.dedup + {w.ref});
    Unfold(c, sh, Task(w, Dedup), sh1, Task(w, ClaimExt));
    var (sh2, t2) := Exec(c, sh1, Task(w, ClaimExt));
    Unfold(c, sh1, Task(w, ClaimExt), sh2, t2);
    assert w.ext in sh2.claims;
    FinishKeepsClaims(c, sh2, t2);
    var once := Handle(c, sh, w);
    if again.ref !in once.dedup {
      var marked := once.(dedup := once.dedup + {again.ref});
      Unfold(c, once, Task(again, Dedup), marked, Task(again, ClaimExt));
      Unfold(c, marked, Task(again, ClaimExt), marked, Task(again, Done(AlreadyClaimed)));
    } else {
      assert once.dedup + {again.ref} == once.dedup;
      SeenReferenceIsDropped(c, once, again);
    }
  }
}
