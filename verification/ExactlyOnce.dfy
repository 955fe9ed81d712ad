/** Exactly-once crediting while the Redis keys live: what the two SetNX claims
    achieve in every interleaving of deliveries and goroutines. */
module ExactlyOnce {
  import opened Money
  import opened Wrappers
  import opened Webhook

  // ===== the two claims

  predicate RefHeld(s: State, ref: string) {
    exists i :: 0 <= i < |s.tasks| && Accepted(s.tasks[i]) && s.tasks[i].w.ref == ref
  }

  predicate ExtHeld(s: State, ext: string) {
    exists i :: 0 <= i < |s.tasks| && Claimed(s.tasks[i]) && s.tasks[i].w.ext == ext
  }

  predicate AcceptedOnce(tasks: seq<Task>) {
    forall i, j :: 0 <= i < j < |tasks| && Accepted(tasks[i]) && Accepted(tasks[j]) ==> tasks[i].w.ref != tasks[j].w.ref
  }

  predicate ClaimedOnce(tasks: seq<Task>) {
    forall i, j :: 0 <= i < j < |tasks| && Claimed(tasks[i]) && Claimed(tasks[j]) ==> tasks[i].w.ext != tasks[j].w.ext
  }

  /** A task's stage agrees with its webhook and with the keys it left behind. */
  predicate Shaped(sh: Shared, t: Task) {
    && (Accepted(t) ==> t.w.ref in sh.dedup)
    && (Claimed(t) ==> IsSuccess(t.w) && t.w.ext in sh.claims)
    && match t.at
       case ClaimExt => IsSuccess(t.w)
       case MarkFailed => !IsSuccess(t.w)
       case Done(Duplicate) => t.w.ref in sh.dedup
       case Done(NoReference) => !IsSuccess(t.w)
       case Done(NotActionable) => !IsSuccess(t.w)
       case Done(MarkedFailed) => !IsSuccess(t.w)
       case Done(AlreadyClaimed) => IsSuccess(t.w) && t.w.ext in sh.claims
       case _ => true
  }

  ghost predicate KeysInv(s: State) {
    && (forall i :: 0 <= i < |s.tasks| ==> Shaped(s.sh, s.tasks[i]))
    && (forall r :: r in s.sh.dedup ==> RefHeld(s, r))
    && (forall e :: e in s.sh.claims ==> ExtHeld(s, e))
    && AcceptedOnce(s.tasks)
    && ClaimedOnce(s.tasks)
  }

  /** Nothing happens to the two SetNX key families (the pending hash may still expire). */
  predicate ClaimsLive(steps: seq<Step>) {
    forall i :: 0 <= i < |steps| ==> !steps[i].LoseDedup? && !steps[i].LoseClaim?
  }

  lemma HoldersKept(s: State, i: nat, t: Task, sh: Shared)
    requires i < |s.tasks| && t.w == s.tasks[i].w
    requires Accepted(s.tasks[i]) ==> Accepted(t)
    requires Claimed(s.tasks[i]) ==> Claimed(t)
    ensures var s' := State(sh, s.tasks[i := t]);
            && (forall r :: RefHeld(s, r) ==> RefHeld(s', r))
            && (forall e :: ExtHeld(s, e) ==> ExtHeld(s', e))
            && (Accepted(t) ==> RefHeld(s', t.w.ref))
            && (Claimed(t) ==> ExtHeld(s', t.w.ext))
  {
    var s' := State(sh, s.tasks[i := t]);
    assert s'.tasks[i] == t;
    forall r | RefHeld(s, r) ensures RefHeld(s', r) {
      var j :| 0 <= j < |s.tasks| && Accepted(s.tasks[j]) && s.tasks[j].w.ref == r;
      assert Accepted(s'.tasks[j]) && s'.tasks[j].w.ref == r;
    }
    forall e | ExtHeld(s, e) ensures ExtHeld(s', e) {
      var j :| 0 <= j < |s.tasks| && Claimed(s.tasks[j]) && s.tasks[j].w.ext == e;
      assert Claimed(s'.tasks[j]) && s'.tasks[j].w.ext == e;
    }
  }

  /** The key sets only grow, by what the advancing task itself claims. */
  predicate KeysGrow(sh: Shared, t: Task, sh': Shared, t': Task) {
    && t'.w == t.w
    && sh.dedup <= sh'.dedup <= sh.dedup + {t.w.ref}
    && sh.claims <= sh'.claims <= sh.claims + {t.w.ext}
    && (Accepted(t) ==> Accepted(t')) && (Claimed(t) ==> Claimed(t'))
    && (!Accepted(t) && Accepted(t') ==> t.w.ref !in sh.dedup)
    && (!Claimed(t) && Claimed(t') ==> t.w.ext !in sh.claims)
    && (sh'.dedup != sh.dedup ==> Accepted(t')) && (sh'.claims != sh.claims ==> Claimed(t'))
  }

  lemma ExecGrowsKeys(c: Catalog, sh: Shared, t: Task)
    ensures var (sh', t') := Exec(c, sh, t); KeysGrow(sh, t, sh', t')
  {
  }

  lemma AdvanceKeepsShape(c: Catalog, sh: Shared, t: Task)
    requires Shaped(sh, t)
    ensures var (sh', t') := Exec(c, sh, t); Shaped(sh', t')
  {
  }

  lemma ShapeSurvives(sh: Shared, sh': Shared, t: Task)
    requires Shaped(sh, t) && sh.dedup <= sh'.dedup && sh.claims <= sh'.claims
    ensures Shaped(sh', t)
  {
  }

  lemma GrowthKeepsKeys(s: State, i: nat, sh': Shared, t': Task)
    requires KeysInv(s) && i < |s.tasks| && KeysGrow(s.sh, s.tasks[i], sh', t') && Shaped(sh', t')
    ensures KeysInv(State(sh', s.tasks[i := t']))
  {
    var s' := State(sh', s.tasks[i := t']);
    HoldersKept(s, i, t', sh');
    forall j | 0 <= j < |s'.tasks| ensures Shaped(sh', s'.tasks[j]) {
      ShapeSurvives(s.sh, sh', s.tasks[j]);
    }
    forall j | 0 <= j < |s.tasks|
      ensures Accepted(s.tasks[j]) ==> s.tasks[j].w.ref in s.sh.dedup
      ensures Claimed(s.tasks[j]) ==> s.tasks[j].w.ext in s.sh.claims
    {
      assert Shaped(s.sh, s.tasks[j]);
    }
  }

  lemma AdvanceKeepsKeys(c: Catalog, s: State, i: nat)
    requires KeysInv(s) && i < |s.tasks|
    ensures KeysInv(Next(c, s, Advance(i)))
  {
    var (sh', t') := Exec(c, s.sh, s.tasks[i]);
    ExecGrowsKeys(c, s.sh, s.tasks[i]);
    AdvanceKeepsShape(c, s.sh, s.tasks[i]);
    GrowthKeepsKeys(s, i, sh', t');
  }

  lemma StepKeepsKeys(c: Catalog, s: State, step: Step)
    requires KeysInv(s) && !step.LoseDedup? && !step.LoseClaim?
    ensures KeysInv(Next(c, s, step))
  {
    var s' := Next(c, s, step);
    if step.Advance? {
      if step.task < |s.tasks| {
        AdvanceKeepsKeys(c, s, step.task);
      }
    } else {
      assert s.tasks <= s'.tasks;
      forall j | 0 <= j < |s'.tasks| ensures Shaped(s'.sh, s'.tasks[j]) {
        if j < |s.tasks| {
          assert Shaped(s.sh, s.tasks[j]);
        }
      }
      forall r | r in s'.sh.dedup ensures RefHeld(s', r) {
        var j :| 0 <= j < |s.tasks| && Accepted(s.tasks[j]) && s.tasks[j].w.ref == r;
        assert Accepted(s'.tasks[j]) && s'.tasks[j].w.ref == r;
      }
      forall e | e in s'.sh.claims ensures ExtHeld(s', e) {
        var j :| 0 <= j < |s.tasks| && Claimed(s.tasks[j]) && s.tasks[j].w.ext == e;
        assert Claimed(s'.tasks[j]) && s'.tasks[j].w.ext == e;
      }
    }
  }

  lemma {:induction false} RunKeepsKeys(c: Catalog, s: State, steps: seq<Step>)
    requires KeysInv(s) && ClaimsLive(steps)
    ensures KeysInv(Run(c, s, steps))
    decreases |steps|
  {
    if steps != [] {
      StepKeepsKeys(c, s, steps[0]);
      assert forall k :: 0 <= k < |steps| - 1 ==> steps[1..][k] == steps[k + 1];
      RunKeepsKeys(c, Next(c, s, steps[0]), steps[1..]);
    }
  }

  /** At every moment of every interleaving, each gateway reference is acted on at most
      once and at most one grant run has been started per payment id. */
  lemma AtMostOneGrant(c: Catalog, steps: seq<Step>, i: nat, j: nat)
    requires ClaimsLive(steps)
    requires var tasks := Run(c, INITIAL, steps).tasks; i < j < |tasks|
    ensures var tasks := Run(c, INITIAL, steps).tasks;
            && (Accepted(tasks[i]) && Accepted(tasks[j]) ==> tasks[i].w.ref != tasks[j].w.ref)
            && (GrantStarted(tasks[i]) && GrantStarted(tasks[j]) ==> tasks[i].w.ext != tasks[j].w.ext)
  {
    RunKeepsKeys(c, INITIAL, steps);
  }

  predicate GrantedFor(s: State, ext: string) {
    exists i :: 0 <= i < |s.tasks| && GrantStarted(s.tasks[i]) && s.tasks[i].w.ext == ext
  }

  predicate SucceededFor(s: State, ext: string) {
    exists i :: 0 <= i < |s.tasks| && Accepted(s.tasks[i]) && IsSuccess(s.tasks[i].w) && s.tasks[i].w.ext == ext
  }

  lemma GrantIffSuccessIn(s: State, ext: string)
    requires KeysInv(s) && Quiescent(s)
    ensures GrantedFor(s, ext) <==> SucceededFor(s, ext)
  {
    if GrantedFor(s, ext) {
      var i :| 0 <= i < |s.tasks| && GrantStarted(s.tasks[i]) && s.tasks[i].w.ext == ext;
      assert Shaped(s.sh, s.tasks[i]);
    }
    if SucceededFor(s, ext) {
      var i :| 0 <= i < |s.tasks| && Accepted(s.tasks[i]) && IsSuccess(s.tasks[i].w) && s.tasks[i].w.ext == ext;
      assert Shaped(s.sh, s.tasks[i]);
      assert ext in s.sh.claims;
      assert ExtHeld(s, ext);
      var j :| 0 <= j < |s.tasks| && Claimed(s.tasks[j]) && s.tasks[j].w.ext == ext;
      assert GrantStarted(s.tasks[j]);
    }
  }

  /** When all handlers have finished, a grant was started for a payment id exactly when
      some success for it was accepted: failed or ignored events under other references
      neither start one nor block one. */
  lemma GrantIffSuccess(c: Catalog, steps: seq<Step>, ext: string)
    requires ClaimsLive(steps) && Quiescent(Run(c, INITIAL, steps))
    ensures GrantedFor(Run(c, INITIAL, steps), ext) <==> SucceededFor(Run(c, INITIAL, steps), ext)
  {
    RunKeepsKeys(c, INITIAL, steps);
    GrantIffSuccessIn(Run(c, INITIAL, steps), ext);
  }

  /** A success that shares its reference with no other delivery is always honoured. */
  lemma UnseenSuccessIsHonoured(c: Catalog, steps: seq<Step>, i: nat)
    requires ClaimsLive(steps) && Quiescent(Run(c, INITIAL, steps))
    requires var tasks := Run(c, INITIAL, steps).tasks;
             && i < |tasks| && IsSuccess(tasks[i].w)
             && forall j :: 0 <= j < |tasks| && j != i ==> tasks[j].w.ref != tasks[i].w.ref
    ensures GrantedFor(Run(c, INITIAL, steps), Run(c, INITIAL, steps).tasks[i].w.ext)
  {
    RunKeepsKeys(c, INITIAL, steps);
    var s := Run(c, INITIAL, steps);
    assert Shaped(s.sh, s.tasks[i]);
    assert RefHeld(s, s.tasks[i].w.ref);
    GrantIffSuccessIn(s, s.tasks[i].w.ext);
  }

  // ===== the payment hash and the rows a grant writes

  /** The row the grant for `w` must write, given the hash its customer created. */
  function OrderRow(c: Catalog, sh: Shared, w: Webhook): PaymentRow
    requires w.ext in sh.pending
  {
    RowFor(c, w, sh.pending[w.ext].(zengapayRef := w.ref))
  }

  predicate SameOrder(a: Pending, b: Pending) {
    a.plan == b.plan && a.slug == b.slug && a.mac == b.mac
  }

  /** The session the grant for `w` must write has been written. */
  predicate HasSession(c: Catalog, sh: Shared, w: Webhook)
    requires w.ext in sh.pending
  {
    exists k :: 0 <= k < |sh.sessions| && sh.sessions[k] == SessionFor(c, w, sh.pending[w.ext])
  }

  predicate SessionOwned(s: State, ext: string) {
    exists i :: 0 <= i < |s.tasks| && SessionWritten(s.tasks[i]) && s.tasks[i].w.ext == ext
  }

  /** What a grant in progress knows about its hash and has left in the tables. */
  predicate Faithful(c: Catalog, sh: Shared, t: Task) {
    && (GrantStarted(t) ==> t.w.ext in sh.pending)
    && (SessionWritten(t) && t.w.ext in sh.pending && SessionFits(c, t.w.phone, sh.pending[t.w.ext]) ==>
          HasSession(c, sh, t.w))
    && match t.at
       case Load => t.w.ext in sh.pending && sh.pending[t.w.ext].zengapayRef == t.w.ref
       case StartSession(v) => t.w.ext in sh.pending && SameOrder(v, sh.pending[t.w.ext]) && v.zengapayRef == t.w.ref
       case RecordPayment(v) => t.w.ext in sh.pending && SameOrder(v, sh.pending[t.w.ext]) && v.zengapayRef == t.w.ref
       case Done(NothingPending) => false
       case Done(NotRecorded) =>
         t.w.ext in sh.pending && !PaymentFits(c, t.w.phone, sh.pending[t.w.ext].(zengapayRef := t.w.ref))
       case _ =>
         PaidAs(t).Some? ==>
           && t.w.ext in sh.pending
           && PaidAs(t).value < |sh.payments|
           && sh.payments[PaidAs(t).value] == OrderRow(c, sh, t.w)
  }

  predicate DistinctSessions(sessions: seq<SessionRow>) {
    forall a, b :: 0 <= a < b < |sessions| ==> sessions[a].ext != sessions[b].ext
  }

  ghost predicate RowsInv(c: Catalog, s: State) {
    && (forall i :: 0 <= i < |s.tasks| ==> Faithful(c, s.sh, s.tasks[i]))
    && DistinctSessions(s.sh.sessions)
    && (forall k :: 0 <= k < |s.sh.sessions| ==> SessionOwned(s, s.sh.sessions[k].ext))
    && (forall p :: 0 <= p < |s.sh.payments| && s.sh.payments[p].zref.Some? ==> s.sh.payments[p].ext.Some?)
  }

  ghost predicate Inv(c: Catalog, s: State) {
    KeysInv(s) && DutyInv(c, s) && TablesInv(c, s.sh) && RowsInv(c, s)
  }

  /** While the claims hold, the payment insert of a grant meets no duplicate. */
  lemma NoConflict(c: Catalog, s: State, i: nat)
    requires Inv(c, s) && i < |s.tasks| && s.tasks[i].at.RecordPayment?
    ensures !HasConfirmed(s.sh, s.tasks[i].w.ext)
    ensures !HasZref(s.sh, NullIfEmpty(s.tasks[i].w.ref))
  {
    var t := s.tasks[i];
    forall p | 0 <= p < |s.sh.payments|
      ensures s.sh.payments[p].ext != Some(t.w.ext)
      ensures t.w.ref != "" ==> s.sh.payments[p].zref != Some(t.w.ref)
    {
      if s.sh.payments[p].ext.Some? {
        assert HasPayer(s.tasks, p);
        var j :| 0 <= j < |s.tasks| && PaidAs(s.tasks[j]) == Some(p);
        assert Faithful(c, s.sh, s.tasks[j]);
        assert Claimed(s.tasks[j]) && Accepted(s.tasks[j]) && Claimed(t) && Accepted(t) && j != i;
      }
    }
  }

  /** All that one statement of `t` may change for others. */
  predicate Grows(sh: Shared, t: Task, sh': Shared, t': Task) {
    && t'.w == t.w
    && sh.sessions <= sh'.sessions && sh.payments <= sh'.payments
    && (forall e :: e in sh.pending ==> e in sh'.pending && SameOrder(sh.pending[e], sh'.pending[e]))
    && (forall e :: e in sh.pending && !(t.at.MarkSuccess? && e == t.w.ext)
                    ==> sh.pending[e].zengapayRef == sh'.pending[e].zengapayRef)
    && (SessionWritten(t) ==> SessionWritten(t'))
    && (sh'.sessions == sh.sessions ||
        (t.at.StartSession? && SessionWritten(t')
         && |sh'.sessions| == |sh.sessions| + 1 && sh'.sessions[|sh.sessions|].ext == t.w.ext))
    && (sh'.payments == sh.payments ||
        (|sh'.payments| == |sh.payments| + 1 && sh'.payments[|sh.payments|].ext.Some?))
  }

  lemma ExecGrows(c: Catalog, sh: Shared, t: Task)
    ensures var (sh', t') := Exec(c, sh, t); Grows(sh, t, sh', t')
  {
  }

  /** A grant stays faithful when the tables grow and its own hash keeps its order. */
  lemma FaithSurvives(c: Catalog, sh: Shared, sh': Shared, t: Task)
    requires Faithful(c, sh, t) && sh.sessions <= sh'.sessions && sh.payments <= sh'.payments
    requires GrantStarted(t) ==>
               && t.w.ext in sh.pending && t.w.ext in sh'.pending
               && SameOrder(sh.pending[t.w.ext], sh'.pending[t.w.ext])
               && sh.pending[t.w.ext].zengapayRef == sh'.pending[t.w.ext].zengapayRef
    ensures Faithful(c, sh', t)
  {
    if GrantStarted(t) && HasSession(c, sh, t.w) {
      var k :| 0 <= k < |sh.sessions| && sh.sessions[k] == SessionFor(c, t.w, sh.pending[t.w.ext]);
      assert sh'.sessions[k] == SessionFor(c, t.w, sh'.pending[t.w.ext]);
    }
  }

  lemma OtherStaysFaithful(c: Catalog, sh: Shared, t: Task, sh': Shared, t': Task, other: Task)
    requires Grows(sh, t, sh', t') && Faithful(c, sh, other)
    requires Claimed(t) && Claimed(other) ==> t.w.ext != other.w.ext
    ensures Faithful(c, sh', other)
  {
    FaithSurvives(c, sh, sh', other);
  }

  lemma SelfStaysFaithful(c: Catalog, sh: Shared, t: Task)
    requires Faithful(c, sh, t)
    requires t.at.RecordPayment? ==> !HasConfirmed(sh, t.w.ext) && !HasZref(sh, NullIfEmpty(t.w.ref))
    ensures var (sh', t') := Exec(c, sh, t); Faithful(c, sh', t')
  {
    var (sh', t') := Exec(c, sh, t);
    if t.at.StartSession? && SessionFits(c, t.w.phone, t.at.vals) {
      assert sh'.sessions[|sh.sessions|] == SessionFor(c, t.w, sh'.pending[t.w.ext]);
    } else if SessionWritten(t) {
      FaithSurvives(c, sh, sh', t);
    }
  }

  lemma SessionsStayOwned(s: State, i: nat, sh': Shared, t': Task)
    requires i < |s.tasks| && Grows(s.sh, s.tasks[i], sh', t')
    requires ClaimedOnce(s.tasks) && DistinctSessions(s.sh.sessions)
    requires forall k :: 0 <= k < |s.sh.sessions| ==> SessionOwned(s, s.sh.sessions[k].ext)
    ensures DistinctSessions(sh'.sessions)
    ensures forall k :: 0 <= k < |sh'.sessions| ==> SessionOwned(State(sh', s.tasks[i := t']), sh'.sessions[k].ext)
  {
    var s', t := State(sh', s.tasks[i := t']), s.tasks[i];
    assert s'.tasks[i] == t';
    forall k | 0 <= k < |s.sh.sessions|
      ensures SessionOwned(s', sh'.sessions[k].ext)
      ensures t.at.StartSession? ==> sh'.sessions[k].ext != t.w.ext
    {
      assert sh'.sessions[k] == s.sh.sessions[k];
      var j :| 0 <= j < |s.tasks| && SessionWritten(s.tasks[j]) && s.tasks[j].w.ext == s.sh.sessions[k].ext;
      assert SessionWritten(s'.tasks[j]) && s'.tasks[j].w.ext == s.sh.sessions[k].ext;
      assert Claimed(s.tasks[j]) && (t.at.StartSession? ==> j != i && Claimed(t));
    }
  }

  lemma AdvanceKeepsRows(c: Catalog, s: State, i: nat)
    requires Inv(c, s) && i < |s.tasks|
    ensures RowsInv(c, Next(c, s, Advance(i)))
  {
    var t := s.tasks[i];
    var (sh', t') := Exec(c, s.sh, t);
    var s' := State(sh', s.tasks[i := t']);
    ExecGrows(c, s.sh, t);
    forall j | 0 <= j < |s'.tasks| ensures Faithful(c, sh', s'.tasks[j]) {
      assert Faithful(c, s.sh, s.tasks[j]);
      if j == i {
        if t.at.RecordPayment? {
          NoConflict(c, s, i);
        }
        SelfStaysFaithful(c, s.sh, t);
      } else {
        OtherStaysFaithful(c, s.sh, t, sh', t', s.tasks[j]);
      }
    }
    SessionsStayOwned(s, i, sh', t');
  }

  lemma StepKeepsRows(c: Catalog, s: State, step: Step)
    requires Inv(c, s) && Fresh(s, step) && !Lossy(step)
    ensures RowsInv(c, Next(c, s, step))
  {
    var s' := Next(c, s, step);
    if step.Advance? {
      if step.task < |s.tasks| {
        AdvanceKeepsRows(c, s, step.task);
      }
    } else {
      assert s.tasks <= s'.tasks;
      forall j | 0 <= j < |s'.tasks| ensures Faithful(c, s'.sh, s'.tasks[j]) {
        if j < |s.tasks| {
          assert Faithful(c, s.sh, s.tasks[j]);
          FaithSurvives(c, s.sh, s'.sh, s.tasks[j]);
        }
      }
      forall k | 0 <= k < |s'.sh.sessions| ensures SessionOwned(s', s'.sh.sessions[k].ext) {
        assert SessionOwned(s, s.sh.sessions[k].ext);
        var j :| 0 <= j < |s.tasks| && SessionWritten(s.tasks[j]) && s.tasks[j].w.ext == s.sh.sessions[k].ext;
        assert SessionWritten(s'.tasks[j]);
      }
    }
  }

  lemma {:induction false} RunKeepsInv(c: Catalog, s: State, steps: seq<Step>)
    requires Inv(c, s) && FreshRun(c, s, steps) && LossFree(steps)
    ensures Inv(c, Run(c, s, steps))
    decreases |steps|
  {
    if steps != [] {
      StepKeepsKeys(c, s, steps[0]);
      StepKeepsTables(c, s, steps[0]);
      StepKeepsRows(c, s, steps[0]);
      assert forall k :: 0 <= k < |steps| - 1 ==> steps[1..][k] == steps[k + 1];
      RunKeepsInv(c, Next(c, s, steps[0]), steps[1..]);
    }
  }

  /** Session k and payment p are what the success of task i bought: for its payer, at the place and
      with the device of the order, for the plan's time and price, under the success's own reference. */
  predicate CreditedBy(c: Catalog, s: State, ext: string, i: nat, k: nat, p: nat) {
    && ext in s.sh.pending && i < |s.tasks| && k < |s.sh.sessions| && p < |s.sh.payments|
    && var w, order, session, payment := s.tasks[i].w, s.sh.pending[ext], s.sh.sessions[k], s.sh.payments[p];
       && Accepted(s.tasks[i]) && w.verdict == Success && w.ext == ext
       && session.ext == ext && session.username == w.phone && session.slug == order.slug
       && session.mac == order.mac && Lasts(c, order.plan, session.mins)
       && payment.ext == Some(ext) && payment.phone == w.phone && payment.slug == order.slug
       && payment.zref == (if w.ref == "" then None else Some(w.ref)) && Costs(c, order.plan, payment.amount)
  }

  /** One session and one payment carry `ext`, both written for the same accepted success. */
  ghost predicate CreditedOnce(c: Catalog, s: State, ext: string) {
    && (exists i: nat, k: nat, p: nat :: CreditedBy(c, s, ext, i, k, p))
    && DistinctSessions(s.sh.sessions)
    && DistinctExts(s.sh.payments)
  }

  /** The rows this delivery's grant would write fit their columns. */
  predicate OrderFits(c: Catalog, sh: Shared, w: Webhook) {
    w.ext in sh.pending ==>
      && SessionFits(c, w.phone, sh.pending[w.ext])
      && PaymentFits(c, w.phone, sh.pending[w.ext].(zengapayRef := w.ref))
  }

  lemma FinishedGrant(c: Catalog, s: State, i: nat)
    requires Inv(c, s) && i < |s.tasks| && GrantStarted(s.tasks[i]) && s.tasks[i].at.Done?
    requires OrderFits(c, s.sh, s.tasks[i].w)
    ensures CreditedOnce(c, s, s.tasks[i].w.ext)
  {
    var t := s.tasks[i];
    assert Faithful(c, s.sh, t) && Shaped(s.sh, t);
    var p := PaidAs(t).value;
    assert s.sh.payments[p] == OrderRow(c, s.sh, t.w);
    var k: nat :| k < |s.sh.sessions| && s.sh.sessions[k] == SessionFor(c, t.w, s.sh.pending[t.w.ext]);
    PlanMatches(c, s.sh.pending[t.w.ext].plan);
    assert CreditedBy(c, s, t.w.ext, i, k, p);
  }

  predicate OrdersFit(c: Catalog, s: State, ext: string) {
    forall i :: 0 <= i < |s.tasks| && s.tasks[i].w.ext == ext ==> OrderFits(c, s.sh, s.tasks[i].w)
  }

  lemma CreditedInState(c: Catalog, s: State, ext: string)
    requires Inv(c, s) && Quiescent(s) && SucceededFor(s, ext) && OrdersFit(c, s, ext)
    ensures CreditedOnce(c, s, ext)
  {
    GrantIffSuccessIn(s, ext);
    var i :| 0 <= i < |s.tasks| && GrantStarted(s.tasks[i]) && s.tasks[i].w.ext == ext;
    FinishedGrant(c, s, i);
  }

  /** Exactly once: with no Redis key lost, when all handlers have finished, a payment id with an
      accepted success has been credited exactly once, if the location is known and the values
      fit their columns. */
  lemma CreditedExactlyOnce(c: Catalog, steps: seq<Step>, ext: string)
    requires FreshRun(c, INITIAL, steps) && LossFree(steps)
    requires Quiescent(Run(c, INITIAL, steps)) && SucceededFor(Run(c, INITIAL, steps), ext)
    requires OrdersFit(c, Run(c, INITIAL, steps), ext)
    ensures CreditedOnce(c, Run(c, INITIAL, steps), ext)
  {
    RunKeepsInv(c, INITIAL, steps);
    CreditedInState(c, Run(c, INITIAL, steps), ext);
  }

  /** And no payment id is credited without an accepted success. */
  lemma NoCreditWithoutSuccess(c: Catalog, steps: seq<Step>, p: nat)
    requires FreshRun(c, INITIAL, steps) && LossFree(steps)
    requires var sh := Run(c, INITIAL, steps).sh; p < |sh.payments| && sh.payments[p].ext.Some?
    ensures SucceededFor(Run(c, INITIAL, steps), Run(c, INITIAL, steps).sh.payments[p].ext.value)
  {
    RunKeepsInv(c, INITIAL, steps);
    var s := Run(c, INITIAL, steps);
    assert HasPayer(s.tasks, p);
    var i :| 0 <= i < |s.tasks| && PaidAs(s.tasks[i]) == Some(p);
    assert Faithful(c, s.sh, s.tasks[i]) && Shaped(s.sh, s.tasks[i]);
    assert Accepted(s.tasks[i]) && IsSuccess(s.tasks[i].w);
  }
}
