/** The webhook crediting protocol. Every Redis call and every SQL statement is one
    atomic step; any number of deliveries and of the goroutines they start may be
    between steps at the same time. */
module Webhook {
  import opened Money
  import opened Wrappers

  /** A delivery as decoded: the gateway's reference, our payment id, the classified event, the payer. */
  datatype Webhook = Webhook(ref: string, ext: string, verdict: Verdict, phone: string)

  /** The Redis hash payment:pending:<id>; a field never written reads as "". */
  datatype Pending = Pending(plan: string, slug: string, mac: string, status: string, zengapayRef: string)

  datatype Plan = Plan(price: int, mins: int)

  /** Tables the protocol only reads. */
  datatype Catalog = Catalog(locations: map<string, nat>, referrals: map<nat, nat>, plans: map<string, Plan>)

  datatype SessionRow = SessionRow(ext: string, username: string, slug: string, mac: string, mins: int)

  /** A confirmed payment; `ext` is metadata.payment_id, absent on cash rows. The row's
      id is its position. */
  datatype PaymentRow = PaymentRow(ext: Option<string>, zref: Option<string>, phone: string, slug: string, amount: int)

  datatype CommissionRow = CommissionRow(agent: nat, operator: nat, payment: nat, amount: int)

  datatype Shared = Shared(
    dedup: set<string>,
    claims: set<string>,
    pending: map<string, Pending>,
    sessions: seq<SessionRow>,
    payments: seq<PaymentRow>,
    commissions: seq<CommissionRow>)

  datatype Outcome =
    | Duplicate
    | NoReference
    | NotActionable
    | MarkedFailed
    | AlreadyClaimed
    | NothingPending
    | NotRecorded
    | Paid(payment: nat)

  /** The next statement of a handler or of the goroutine it turned into. */
  datatype Stage =
    | Dedup
    | ClaimExt
    | MarkSuccess
    | MarkFailed
    | Load
    | StartSession(vals: Pending)
    | RecordPayment(vals: Pending)
    | FindReferral(payment: nat, slug: string, amount: int)
    | RecordCommission(row: CommissionRow)
    | Done(outcome: Outcome)

  datatype Task = Task(w: Webhook, at: Stage)

  datatype State = State(sh: Shared, tasks: seq<Task>)

  const EMPTY_HASH := Pending("", "", "", "", "")

  const LEGACY_PLANS :=
    map["plan-1h" := Plan(500, 60), "plan-day" := Plan(2000, 1440), "plan-week" := Plan(8000, 10080)]
  const FALLBACK_PLAN := Plan(500, 60)

  function PlanOf(c: Catalog, id: string): Plan {
    if id in c.plans then c.plans[id]
    else if id in LEGACY_PLANS then LEGACY_PLANS[id]
    else FALLBACK_PLAN
  }

  /** The minutes a plan id stands for: those of its row in the plans table, or of the three ids
      from before that table, or an hour. */
  predicate Lasts(c: Catalog, id: string, mins: int) {
    if id in c.plans then mins == c.plans[id].mins
    else if id == "plan-week" then mins == 10080
    else if id == "plan-day" then mins == 1440
    else mins == 60
  }

  /** And its price, 500 UGX when nothing else is known. */
  predicate Costs(c: Catalog, id: string, price: int) {
    if id in c.plans then price == c.plans[id].price
    else if id == "plan-week" then price == 8000
    else if id == "plan-day" then price == 2000
    else price == 500
  }

  /** The plan looked up for an id is the one it stands for. */
  lemma PlanMatches(c: Catalog, id: string)
    ensures Lasts(c, id, PlanOf(c, id).mins) && Costs(c, id, PlanOf(c, id).price)
  {
  }

  function NullIfEmpty(s: string): Option<string> {
    if s == "" then None else Some(s)
  }

  function Hash(sh: Shared, ext: string): Pending {
    if ext in sh.pending then sh.pending[ext] else EMPTY_HASH
  }

  predicate HasConfirmed(sh: Shared, ext: string) {
    exists p :: 0 <= p < |sh.payments| && sh.payments[p].ext == Some(ext)
  }

  predicate HasZref(sh: Shared, zref: Option<string>) {
    zref.Some? && exists p :: 0 <= p < |sh.payments| && sh.payments[p].zref == zref
  }

  predicate HasCommission(sh: Shared, payment: nat) {
    exists k :: 0 <= k < |sh.commissions| && sh.commissions[k].payment == payment
  }

  function SessionFor(c: Catalog, w: Webhook, vals: Pending): SessionRow {
    SessionRow(w.ext, w.phone, vals.slug, vals.mac, PlanOf(c, vals.plan).mins)
  }

  /** The payment row a successful grant writes. */
  function RowFor(c: Catalog, w: Webhook, vals: Pending): PaymentRow {
    PaymentRow(Some(w.ext), NullIfEmpty(vals.zengapayRef), w.phone, vals.slug, PlanOf(c, vals.plan).price)
  }

  /** The commission due on a payment at this location, if any. */
  function DueFor(c: Catalog, payment: nat, slug: string, amount: int): Option<CommissionRow> {
    var cut := AgentCommission(amount, AGENT_COMMISSION_RATE);
    if slug in c.locations && c.locations[slug] in c.referrals && cut != 0 then
      Some(CommissionRow(c.referrals[c.locations[slug]], c.locations[slug], payment, cut))
    else None
  }

  /** The referring agent's cut of this payment: the agent and the tenant of its location, and
      the whole part of 3%. */
  predicate OwedTo(c: Catalog, slug: string, amount: int, row: CommissionRow) {
    && slug in c.locations && c.locations[slug] in c.referrals
    && row.operator == c.locations[slug] && row.agent == c.referrals[c.locations[slug]]
    && 1 <= row.amount && row.amount as real <= amount as real * 0.03 < (row.amount + 1) as real
  }

  /** A commission is due exactly on a payment of at least 34 UGX of a referred tenant. */
  lemma DueIffOwed(c: Catalog, payment: nat, slug: string, amount: int)
    ensures var due := DueFor(c, payment, slug, amount);
            && (due.Some? <==> slug in c.locations && c.locations[slug] in c.referrals && 34 <= amount)
            && (due.Some? ==> due.value.payment == payment && OwedTo(c, slug, amount, due.value))
  {
    CutFrom34(amount);
    if 34 <= amount {
      AgentCutIsFloor(amount);
    }
  }

  /** The columns take the values: the location is known, and customer_phone, mac_address and
      zengapay_ref hold at most 20, 17 and 255 characters. A failing insert is ignored. */
  predicate SessionFits(c: Catalog, phone: string, vals: Pending) {
    vals.slug in c.locations && |phone| <= 20 && |vals.mac| <= 17
  }

  predicate PaymentFits(c: Catalog, phone: string, vals: Pending) {
    vals.slug in c.locations && |phone| <= 20 && |vals.zengapayRef| <= 255
  }

  /** One atomic statement of one task. */
  function Exec(c: Catalog, sh: Shared, t: Task): (Shared, Task) {
    var w := t.w;
    match t.at
    case Dedup =>
      if w.ref in sh.dedup then (sh, Task(w, Done(Duplicate)))
      else
        var next :=
          if w.ext == "" then Done(NoReference)
          else match w.verdict
               case Success => ClaimExt
               case Failed => MarkFailed
               case Ignored => Done(NotActionable);
        (sh.(dedup := sh.dedup + {w.ref}), Task(w, next))
    case ClaimExt =>
      if w.ext in sh.claims then (sh, Task(w, Done(AlreadyClaimed)))
      else (sh.(claims := sh.claims + {w.ext}), Task(w, MarkSuccess))
    case MarkSuccess =>
      (sh.(pending := sh.pending[w.ext := Hash(sh, w.ext).(status := "successful", zengapayRef := w.ref)]),
        Task(w, Load))
    case MarkFailed =>
      (sh.(pending := sh.pending[w.ext := Hash(sh, w.ext).(status := "failed")]), Task(w, Done(MarkedFailed)))
    case Load =>
      (sh, Task(w, if w.ext in sh.pending then StartSession(sh.pending[w.ext]) else Done(NothingPending)))
    case StartSession(v) =>
      var sh' := if SessionFits(c, w.phone, v) then sh.(sessions := sh.sessions + [SessionFor(c, w, v)]) else sh;
      (sh', Task(w, RecordPayment(v)))
    case RecordPayment(v) =>
      var row := RowFor(c, w, v);
      if !PaymentFits(c, w.phone, v) || HasConfirmed(sh, w.ext) || HasZref(sh, row.zref) then
        (sh, Task(w, Done(NotRecorded)))
      else (sh.(payments := sh.payments + [row]), Task(w, FindReferral(|sh.payments|, v.slug, row.amount)))
    case FindReferral(p, slug, amount) =>
      var due := DueFor(c, p, slug, amount);
      (sh, Task(w, if due.Some? then RecordCommission(due.value) else Done(Paid(p))))
    case RecordCommission(row) =>
      var sh' := if HasCommission(sh, row.payment) then sh else sh.(commissions := sh.commissions + [row]);
      (sh', Task(w, Done(Paid(row.payment))))
    case Done(_) => (sh, t)
  }

  datatype Step =
    | Deliver(w: Webhook)
    | Advance(task: nat)
    | Initiate(ext: string, hash: Pending)
    | Cash(phone: string, slug: string, amount: int)
    | LoseDedup(ref: string)
    | LoseClaim(ext: string)
    | LosePending(ext: string)

  function Next(c: Catalog, s: State, step: Step): State {
    match step
    case Deliver(w) => s.(tasks := s.tasks + [Task(w, Dedup)])
    case Advance(i) =>
      if i < |s.tasks| then
        var (sh, t) := Exec(c, s.sh, s.tasks[i]);
        State(sh, s.tasks[i := t])
      else s
    case Initiate(ext, hash) => s.(sh := s.sh.(pending := s.sh.pending[ext := hash]))
    case Cash(phone, slug, amount) =>
      s.(sh := s.sh.(payments := s.sh.payments + [PaymentRow(None, None, phone, slug, amount)]))
    case LoseDedup(ref) => s.(sh := s.sh.(dedup := s.sh.dedup - {ref}))
    case LoseClaim(ext) => s.(sh := s.sh.(claims := s.sh.claims - {ext}))
    case LosePending(ext) => s.(sh := s.sh.(pending := s.sh.pending - {ext}))
  }

  /** A payment id made by InitiatePayment is new. */
  predicate Fresh(s: State, step: Step) {
    step.Initiate? ==> step.ext !in s.sh.pending && forall i :: 0 <= i < |s.tasks| ==> s.tasks[i].w.ext != step.ext
  }

  predicate Lossy(step: Step) {
    step.LoseDedup? || step.LoseClaim? || step.LosePending?
  }

  const INITIAL := State(Shared({}, {}, map[], [], [], []), [])

  function Run(c: Catalog, s: State, steps: seq<Step>): State
    decreases |steps|
  {
    if steps == [] then s else Run(c, Next(c, s, steps[0]), steps[1..])
  }

  predicate FreshRun(c: Catalog, s: State, steps: seq<Step>)
    decreases |steps|
  {
    steps == [] || (Fresh(s, steps[0]) && FreshRun(c, Next(c, s, steps[0]), steps[1..]))
  }

  predicate LossFree(steps: seq<Step>) {
    forall i :: 0 <= i < |steps| ==> !Lossy(steps[i])
  }

  predicate Quiescent(s: State) {
    forall i :: 0 <= i < |s.tasks| ==> s.tasks[i].at.Done?
  }

  // ----- what a task has achieved, read off its stage

  predicate IsSuccess(w: Webhook) {
    w.ext != "" && w.verdict == Success
  }

  /** Its reference was new when it was looked up. */
  predicate Accepted(t: Task) {
    t.at != Dedup && t.at != Done(Duplicate)
  }

  /** It holds the claim on its payment id. */
  predicate Claimed(t: Task) {
    match t.at
    case Dedup => false
    case ClaimExt => false
    case MarkFailed => false
    case Done(o) => o.NothingPending? || o.NotRecorded? || o.Paid?
    case _ => true
  }

  /** Its goroutine has been started. */
  predicate GrantStarted(t: Task) {
    Claimed(t) && !t.at.MarkSuccess?
  }

  predicate SessionWritten(t: Task) {
    GrantStarted(t) && !t.at.Load? && !t.at.StartSession? && t.at != Done(NothingPending)
  }

  /** The payment row it wrote, if it has written one. */
  function PaidAs(t: Task): Option<nat> {
    match t.at
    case FindReferral(p, _, _) => Some(p)
    case RecordCommission(row) => Some(row.payment)
    case Done(Paid(p)) => Some(p)
    case _ => None
  }

  // ===== the database's line of defence: no assumption on Redis at all

  predicate DistinctExts(payments: seq<PaymentRow>) {
    forall p, q :: 0 <= p < q < |payments| && payments[p].ext.Some? ==> payments[p].ext != payments[q].ext
  }

  predicate DistinctZrefs(payments: seq<PaymentRow>) {
    forall p, q :: 0 <= p < q < |payments| && payments[p].zref.Some? ==> payments[p].zref != payments[q].zref
  }

  predicate DistinctCommissions(commissions: seq<CommissionRow>) {
    forall a, b :: 0 <= a < b < |commissions| ==> commissions[a].payment != commissions[b].payment
  }

  /** This commission is the one its payment calls for. */
  predicate Exact(c: Catalog, payments: seq<PaymentRow>, row: CommissionRow) {
    && row.payment < |payments|
    && payments[row.payment].ext.Some?
    && DueFor(c, row.payment, payments[row.payment].slug, payments[row.payment].amount) == Some(row)
  }

  ghost predicate TablesInv(c: Catalog, sh: Shared) {
    && DistinctExts(sh.payments)
    && DistinctZrefs(sh.payments)
    && DistinctCommissions(sh.commissions)
    && (forall k :: 0 <= k < |sh.commissions| ==> Exact(c, sh.payments, sh.commissions[k]))
  }

  /** What a task still owes the commission table. */
  predicate Dutiful(c: Catalog, sh: Shared, t: Task) {
    match t.at
    case FindReferral(p, slug, amount) =>
      && p < |sh.payments| && sh.payments[p].ext.Some?
      && sh.payments[p].slug == slug && sh.payments[p].amount == amount && !HasCommission(sh, p)
    case RecordCommission(row) => Exact(c, sh.payments, row) && !HasCommission(sh, row.payment)
    case Done(Paid(p)) =>
      && p < |sh.payments| && sh.payments[p].ext.Some?
      && (DueFor(c, p, sh.payments[p].slug, sh.payments[p].amount).Some? ==> HasCommission(sh, p))
    case _ => true
  }

  predicate DistinctPayments(tasks: seq<Task>) {
    forall i, j :: 0 <= i < j < |tasks| && PaidAs(tasks[i]).Some? ==> PaidAs(tasks[i]) != PaidAs(tasks[j])
  }

  predicate HasPayer(tasks: seq<Task>, p: nat) {
    exists i :: 0 <= i < |tasks| && PaidAs(tasks[i]) == Some(p)
  }

  ghost predicate DutyInv(c: Catalog, s: State) {
    && (forall i :: 0 <= i < |s.tasks| ==> Dutiful(c, s.sh, s.tasks[i]))
    && DistinctPayments(s.tasks)
    && (forall p: nat :: p < |s.sh.payments| && s.sh.payments[p].ext.Some? ==> HasPayer(s.tasks, p))
  }

  lemma AppendPayment(c: Catalog, sh: Shared, row: PaymentRow)
    requires TablesInv(c, sh)
    requires row.ext.Some? ==> !HasConfirmed(sh, row.ext.value)
    requires !HasZref(sh, row.zref)
    ensures TablesInv(c, sh.(payments := sh.payments + [row]))
  {
    var sh' := sh.(payments := sh.payments + [row]);
    forall k | 0 <= k < |sh.commissions| ensures Exact(c, sh'.payments, sh.commissions[k]) {
      assert Exact(c, sh.payments, sh.commissions[k]);
    }
  }

  lemma AppendPaymentDuty(c: Catalog, sh: Shared, row: PaymentRow, t: Task)
    requires Dutiful(c, sh, t)
    ensures Dutiful(c, sh.(payments := sh.payments + [row]), t)
  {
  }

  lemma PayersKept(tasks: seq<Task>, i: nat, t: Task, n: nat)
    requires i < |tasks| && (PaidAs(tasks[i]) == PaidAs(t) || PaidAs(tasks[i]).None?)
    ensures forall p: nat :: p < n && HasPayer(tasks, p) ==> HasPayer(tasks[i := t], p)
  {
    var tasks' := tasks[i := t];
    forall p: nat | p < n && HasPayer(tasks, p) ensures HasPayer(tasks', p) {
      var j :| 0 <= j < |tasks| && PaidAs(tasks[j]) == Some(p);
      assert PaidAs(tasks'[j]) == Some(p);
    }
  }

  lemma AdvanceKeepsTables(c: Catalog, s: State, i: nat)
    requires TablesInv(c, s.sh) && DutyInv(c, s) && i < |s.tasks|
    ensures TablesInv(c, Next(c, s, Advance(i)).sh)
  {
    var t := s.tasks[i];
    assert Dutiful(c, s.sh, t);
    match t.at
    case RecordPayment(v) =>
      var row := RowFor(c, t.w, v);
      if PaymentFits(c, t.w.phone, v) && !HasConfirmed(s.sh, t.w.ext) && !HasZref(s.sh, row.zref) {
        AppendPayment(c, s.sh, row);
      }
    case _ =>
  }

  lemma FreshCommissionDuty(c: Catalog, s: State, i: nat, j: nat)
    requires TablesInv(c, s.sh) && DutyInv(c, s) && i < |s.tasks| && j < |s.tasks|
    requires s.tasks[i].at.RecordCommission? && !HasCommission(s.sh, s.tasks[i].at.row.payment)
    ensures Dutiful(c, Next(c, s, Advance(i)).sh, Next(c, s, Advance(i)).tasks[j])
  {
    var row := s.tasks[i].at.row;
    var sh' := s.sh.(commissions := s.sh.commissions + [row]);
    assert Dutiful(c, s.sh, s.tasks[i]) && Dutiful(c, s.sh, s.tasks[j]);
    assert sh'.commissions[|s.sh.commissions|] == row;
    forall p: nat ensures HasCommission(sh', p) <==> HasCommission(s.sh, p) || p == row.payment {
      if HasCommission(s.sh, p) {
        var k :| 0 <= k < |s.sh.commissions| && s.sh.commissions[k].payment == p;
        assert sh'.commissions[k].payment == p;
      }
    }
    if j != i && PaidAs(s.tasks[j]).Some? {
      assert PaidAs(s.tasks[j]) != PaidAs(s.tasks[i]);
    }
  }

  lemma FreshPaymentDuty(c: Catalog, s: State, i: nat, j: nat)
    requires TablesInv(c, s.sh) && DutyInv(c, s) && i < |s.tasks| && j < |s.tasks|
    requires Next(c, s, Advance(i)).sh.payments != s.sh.payments
    ensures Dutiful(c, Next(c, s, Advance(i)).sh, Next(c, s, Advance(i)).tasks[j])
  {
    assert Dutiful(c, s.sh, s.tasks[j]);
    if j == i {
      forall k | 0 <= k < |s.sh.commissions| ensures s.sh.commissions[k].payment != |s.sh.payments| {
        assert Exact(c, s.sh.payments, s.sh.commissions[k]);
      }
    } else {
      AppendPaymentDuty(c, s.sh, RowFor(c, s.tasks[i].w, s.tasks[i].at.vals), s.tasks[j]);
    }
  }

  lemma AdvanceKeepsEachDuty(c: Catalog, s: State, i: nat, j: nat)
    requires TablesInv(c, s.sh) && DutyInv(c, s) && i < |s.tasks| && j < |s.tasks|
    ensures Dutiful(c, Next(c, s, Advance(i)).sh, Next(c, s, Advance(i)).tasks[j])
  {
    var t := s.tasks[i];
    assert Dutiful(c, s.sh, t) && Dutiful(c, s.sh, s.tasks[j]);
    match t.at
    case RecordPayment(v) =>
      if PaymentFits(c, t.w.phone, v) && !HasConfirmed(s.sh, t.w.ext) && !HasZref(s.sh, RowFor(c, t.w, v).zref) {
        FreshPaymentDuty(c, s, i, j);
      }
    case RecordCommission(row) =>
      if !HasCommission(s.sh, row.payment) {
        FreshCommissionDuty(c, s, i, j);
      }
    case _ =>
  }

  lemma AdvanceKeepsPayers(c: Catalog, s: State, i: nat)
    requires DutyInv(c, s) && i < |s.tasks|
    ensures DistinctPayments(Next(c, s, Advance(i)).tasks)
    ensures var s' := Next(c, s, Advance(i));
            forall p: nat :: p < |s'.sh.payments| && s'.sh.payments[p].ext.Some? ==> HasPayer(s'.tasks, p)
  {
    var t := s.tasks[i];
    var s' := Next(c, s, Advance(i));
    var n := |s.sh.payments|;
    PayersKept(s.tasks, i, s'.tasks[i], n);
    if t.at.RecordPayment? && |s'.sh.payments| > n {
      assert PaidAs(s'.tasks[i]) == Some(n);
      forall j | 0 <= j < |s.tasks| && PaidAs(s.tasks[j]).Some? ensures PaidAs(s.tasks[j]).value < n {
        assert Dutiful(c, s.sh, s.tasks[j]);
      }
    }
  }

  lemma AdvanceKeepsDuty(c: Catalog, s: State, i: nat)
    requires TablesInv(c, s.sh) && DutyInv(c, s) && i < |s.tasks|
    ensures DutyInv(c, Next(c, s, Advance(i)))
  {
    var s' := Next(c, s, Advance(i));
    forall j | 0 <= j < |s'.tasks| ensures Dutiful(c, s'.sh, s'.tasks[j]) {
      AdvanceKeepsEachDuty(c, s, i, j);
    }
    AdvanceKeepsPayers(c, s, i);
  }

  lemma StepKeepsTables(c: Catalog, s: State, step: Step)
    requires TablesInv(c, s.sh) && DutyInv(c, s)
    ensures TablesInv(c, Next(c, s, step).sh) && DutyInv(c, Next(c, s, step))
  {
    var s' := Next(c, s, step);
    match step
    case Deliver(w) =>
      assert forall j :: 0 <= j < |s.tasks| ==> s'.tasks[j] == s.tasks[j];
      forall p: nat | p < |s.sh.payments| && s.sh.payments[p].ext.Some? ensures HasPayer(s'.tasks, p) {
        assert HasPayer(s.tasks, p);
        var j :| 0 <= j < |s.tasks| && PaidAs(s.tasks[j]) == Some(p);
        assert PaidAs(s'.tasks[j]) == Some(p);
      }
    case Advance(i) =>
      if i < |s.tasks| {
        AdvanceKeepsTables(c, s, i);
        AdvanceKeepsDuty(c, s, i);
      }
    case Cash(phone, slug, amount) =>
      var row := PaymentRow(None, None, phone, slug, amount);
      AppendPayment(c, s.sh, row);
      forall j | 0 <= j < |s.tasks| ensures Dutiful(c, s'.sh, s.tasks[j]) {
        AppendPaymentDuty(c, s.sh, row, s.tasks[j]);
      }
    case _ =>
      forall j | 0 <= j < |s.tasks| ensures Dutiful(c, s'.sh, s.tasks[j]) {
        assert Dutiful(c, s.sh, s.tasks[j]);
      }
  }

  lemma {:induction false} RunKeepsTables(c: Catalog, s: State, steps: seq<Step>)
    requires TablesInv(c, s.sh) && DutyInv(c, s)
    ensures TablesInv(c, Run(c, s, steps).sh) && DutyInv(c, Run(c, s, steps))
    decreases |steps|
  {
    if steps != [] {
      StepKeepsTables(c, s, steps[0]);
      RunKeepsTables(c, Next(c, s, steps[0]), steps[1..]);
    }
  }

  /** Whatever Redis loses and however the handlers interleave: no two confirmed payments
      share a payment id or a gateway reference, no payment has two commissions, and every
      commission is the referring agent's cut of its own gateway payment. */
  lemma DatabaseDefence(c: Catalog, steps: seq<Step>)
    ensures var sh := Run(c, INITIAL, steps).sh;
            && DistinctExts(sh.payments) && DistinctZrefs(sh.payments) && DistinctCommissions(sh.commissions)
            && forall k :: 0 <= k < |sh.commissions| ==>
                 var row := sh.commissions[k];
                 && row.payment < |sh.payments| && sh.payments[row.payment].ext.Some?
                 && OwedTo(c, sh.payments[row.payment].slug, sh.payments[row.payment].amount, row)
  {
    RunKeepsTables(c, INITIAL, steps);
    var sh := Run(c, INITIAL, steps).sh;
    forall k | 0 <= k < |sh.commissions|
      ensures var row := sh.commissions[k];
              && row.payment < |sh.payments| && sh.payments[row.payment].ext.Some?
              && OwedTo(c, sh.payments[row.payment].slug, sh.payments[row.payment].amount, row)
    {
      assert Exact(c, sh.payments, sh.commissions[k]);
      var paid := sh.payments[sh.commissions[k].payment];
      DueIffOwed(c, sh.commissions[k].payment, paid.slug, paid.amount);
    }
  }

  /** Once every handler has finished, the commission rows are exactly those due: on gateway
      payments of at least 34 UGX of a referred tenant. */
  lemma CommissionsComplete(c: Catalog, steps: seq<Step>, p: nat)
    requires var s := Run(c, INITIAL, steps); Quiescent(s) && p < |s.sh.payments|
    ensures var sh := Run(c, INITIAL, steps).sh;
            var row := sh.payments[p];
            HasCommission(sh, p) <==>
              && row.ext.Some? && 34 <= row.amount
              && row.slug in c.locations && c.locations[row.slug] in c.referrals
  {
    RunKeepsTables(c, INITIAL, steps);
    var s := Run(c, INITIAL, steps);
    DueIffOwed(c, p, s.sh.payments[p].slug, s.sh.payments[p].amount);
    if HasCommission(s.sh, p) {
      var k :| 0 <= k < |s.sh.commissions| && s.sh.commissions[k].payment == p;
      assert Exact(c, s.sh.payments, s.sh.commissions[k]);
    }
    if s.sh.payments[p].ext.Some? {
      assert HasPayer(s.tasks, p);
      var i :| 0 <= i < |s.tasks| && PaidAs(s.tasks[i]) == Some(p);
      assert Dutiful(c, s.sh, s.tasks[i]);
    }
  }

  // ----- the payment hash

  /** The next statement of a task that is about to touch this hash. */
  predicate Touches(s: State, step: Step, ext: string, at: Stage) {
    step.Advance? && step.task < |s.tasks| && s.tasks[step.task].w.ext == ext && s.tasks[step.task].at == at
  }

  /** A hash keeps the plan, the location and the device its customer chose; a success makes it
      "successful" under its own reference, a failure makes it "failed" and keeps the reference,
      and nothing else changes it. */
  lemma HashMoves(c: Catalog, s: State, step: Step, ext: string)
    requires ext in s.sh.pending && Fresh(s, step) && step != LosePending(ext)
    ensures var before, after := s.sh.pending[ext], Next(c, s, step).sh.pending;
            && ext in after
            && after[ext].plan == before.plan && after[ext].slug == before.slug && after[ext].mac == before.mac
            && (Touches(s, step, ext, MarkSuccess) ==>
                  after[ext].status == "successful" && after[ext].zengapayRef == s.tasks[step.task].w.ref)
            && (Touches(s, step, ext, MarkFailed) ==>
                  after[ext].status == "failed" && after[ext].zengapayRef == before.zengapayRef)
            && (!Touches(s, step, ext, MarkSuccess) && !Touches(s, step, ext, MarkFailed) ==> after[ext] == before)
  {
  }

  /** Until it is lost, a hash holds the order it was created with. */
  lemma {:induction false} OrderStays(c: Catalog, s: State, steps: seq<Step>, ext: string)
    requires ext in s.sh.pending && FreshRun(c, s, steps) && LossFree(steps)
    ensures var before, after := s.sh.pending[ext], Run(c, s, steps).sh.pending;
            && ext in after
            && after[ext].plan == before.plan && after[ext].slug == before.slug && after[ext].mac == before.mac
    decreases |steps|
  {
    if steps != [] {
      HashMoves(c, s, steps[0], ext);
      assert forall k :: 0 <= k < |steps| - 1 ==> steps[1..][k] == steps[k + 1];
      OrderStays(c, Next(c, s, steps[0]), steps[1..], ext);
    }
  }
}
