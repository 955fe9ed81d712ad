/** The money arithmetic of the billing back end: fees, balances, rate overrides
    and the classification of gateway events. Amounts are whole UGX; a rate is an
    exact real number, so the only rounding is the truncation the code asks for. */
module Money {

  const DEFAULT_COMMISSION_RATE := 0.08
  const AGENT_COMMISSION_RATE := 0.03
  const MIN_PAYOUT := 5000

  /** The value of the per-tenant commission override before validation. */
  datatype Setting = Absent | Unparsable | Number(value: real)

  predicate LegalRate(rate: real) {
    0.0 <= rate < 1.0
  }

  /** Go's conversion of a float to an int: the fraction is dropped. */
  function Truncate(x: real): int {
    if x >= 0.0 then x.Floor else -((-x).Floor)
  }

  function PlatformCommission(gross: int, rate: real): int {
    Truncate(gross as real * rate)
  }

  function OperatorAvailable(gross: int, rate: real, withdrawn: int): int {
    var available := gross - PlatformCommission(gross, rate) - withdrawn;
    if available < 0 then 0 else available
  }

  /** What is left of a credit once what is reserved is taken off; never negative. */
  function AgentAvailable(earned: int, reserved: int): int {
    var available := earned - reserved;
    if available < 0 then 0 else available
  }

  function AgentCommission(amount: int, rate: real): int {
    var c := Truncate(amount as real * rate);
    if c < 1 then 0 else c
  }

  function ParseCommissionRate(setting: Setting, fallback: real): real {
    match setting
    case Absent => fallback
    case Unparsable => fallback
    case Number(r) => if r < 0.0 || r >= 1.0 then fallback else r
  }

  /** What an operator may keep of `gross`. */
  function Net(gross: int, rate: real): int {
    gross - PlatformCommission(gross, rate)
  }

  /** The rate in force always lies in [0, 1): the override where it is a number in that range,
      8% otherwise. */
  lemma RateInForce(setting: Setting)
    ensures LegalRate(ParseCommissionRate(setting, DEFAULT_COMMISSION_RATE))
    ensures ParseCommissionRate(setting, DEFAULT_COMMISSION_RATE)
              == if setting.Number? && 0.0 <= setting.value < 1.0 then setting.value else 0.08
  {
  }

  lemma ProductNonNegative(x: real, y: real)
    requires 0.0 <= x && 0.0 <= y
    ensures 0.0 <= x * y
  {
  }

  lemma Distribute(x: real, y: real, z: real)
    ensures (x + y) * z == x * z + y * z
    ensures z * (x + y) == z * x + z * y
  {
  }

  lemma StrictProduct(x: real, y: real)
    requires 0.0 < x && 0.0 < y
    ensures 0.0 < x * y
  {
  }

  /** A share of a non-negative amount lies between nothing and the amount. */
  lemma ShareBelow(a: int, rate: real)
    requires 0 <= a && LegalRate(rate)
    ensures 0.0 <= a as real * rate <= a as real
    ensures a > 0 ==> a as real * rate < a as real
  {
    ProductNonNegative(a as real, rate);
    ProductNonNegative(a as real, 1.0 - rate);
    Distribute(rate, 1.0 - rate, a as real);
    if a > 0 {
      StrictProduct(a as real, 1.0 - rate);
    }
  }

  /** The platform takes the largest whole amount not above its share, so it never
      rounds up and never takes everything. */
  lemma CommissionIsFloor(gross: int, rate: real)
    requires 0 <= gross && LegalRate(rate)
    ensures var c := PlatformCommission(gross, rate);
            0 <= c && c as real <= gross as real * rate < (c + 1) as real
    ensures gross > 0 ==> PlatformCommission(gross, rate) < gross
    ensures 0 <= Net(gross, rate)
  {
    ShareBelow(gross, rate);
  }

  /** Charging two amounts apart costs at most one UGX less than charging them together. */
  lemma CommissionSplit(a: int, b: int, rate: real)
    requires 0 <= a && 0 <= b && LegalRate(rate)
    ensures var apart := PlatformCommission(a, rate) + PlatformCommission(b, rate);
            apart <= PlatformCommission(a + b, rate) <= apart + 1
  {
    CommissionIsFloor(a, rate);
    CommissionIsFloor(b, rate);
    CommissionIsFloor(a + b, rate);
    Distribute(a as real, b as real, rate);
    assert (a + b) as real == a as real + b as real;
  }

  /** New revenue never lowers the fee and never lowers what the operator may keep. */
  lemma MoreRevenueHelps(a: int, b: int, rate: real)
    requires 0 <= a <= b && LegalRate(rate)
    ensures PlatformCommission(a, rate) <= PlatformCommission(b, rate)
    ensures Net(a, rate) <= Net(b, rate)
  {
    CommissionSplit(a, b - a, rate);
    CommissionIsFloor(b - a, rate);
  }

  /** The agent's cut is the largest whole amount not above 3% of the payment, whatever its size. */
  lemma AgentCutIsFloor(amount: int)
    requires 0 <= amount
    ensures var c := AgentCommission(amount, AGENT_COMMISSION_RATE);
            0 <= c && c as real <= amount as real * 0.03 < (c + 1) as real
  {
    ShareBelow(amount, AGENT_COMMISSION_RATE);
  }

  /** A payment earns a cut exactly from 34 UGX up. */
  lemma CutFrom34(amount: int)
    ensures AgentCommission(amount, AGENT_COMMISSION_RATE) != 0 <==> 34 <= amount
    ensures 34 <= amount ==> 1 <= AgentCommission(amount, AGENT_COMMISSION_RATE)
  {
    if 34 <= amount {
      assert amount as real * 0.03 >= 34.0 * 0.03;
    } else {
      assert amount as real * 0.03 <= 33.0 * 0.03;
    }
  }

  lemma AgentCutFunded(amount: int, rate: real)
    requires 0 <= amount && LegalRate(rate) && AGENT_COMMISSION_RATE <= rate
    ensures 0 <= AgentCommission(amount, AGENT_COMMISSION_RATE) <= PlatformCommission(amount, rate)
  {
    ShareBelow(amount, rate);
    Distribute(AGENT_COMMISSION_RATE, rate - AGENT_COMMISSION_RATE, amount as real);
    ProductNonNegative(amount as real, rate - AGENT_COMMISSION_RATE);
  }

  /** The agent's cut of every possible payment fits inside the platform's cut of it
      exactly when the tenant's rate is at least the agent rate. */
  lemma AgentCutFundedIff(rate: real)
    requires LegalRate(rate)
    ensures (forall amount: nat :: AgentCommission(amount, AGENT_COMMISSION_RATE) <= PlatformCommission(amount, rate))
            <==> AGENT_COMMISSION_RATE <= rate
  {
    if AGENT_COMMISSION_RATE <= rate {
      forall amount: nat
        ensures AgentCommission(amount, AGENT_COMMISSION_RATE) <= PlatformCommission(amount, rate)
      {
        AgentCutFunded(amount, rate);
      }
    } else {
      assert PlatformCommission(100, rate) < AgentCommission(100, AGENT_COMMISSION_RATE);
    }
  }

  // ----- gateway events

  datatype Verdict = Success | Failed | Ignored

  /** Upper-casing as far as it can matter for the words below: besides the ASCII letters only
      the dotless i and the long s have an ASCII upper case; every other letter keeps a
      non-ASCII one and is left as it is. */
  function UpperChar(c: char): char {
    if 'a' <= c <= 'z' then c - 'a' + 'A'
    else if c == '\U{131}' then 'I'
    else if c == '\U{17F}' then 'S'
    else c
  }

  function Upper(s: string): (u: string)
    ensures |u| == |s|
  {
    seq(|s|, i requires 0 <= i < |s| => UpperChar(s[i]))
  }

  function ClassifyEvent(transactionStatus: string, event: string): Verdict {
    var status, ev := Upper(transactionStatus), Upper(event);
    if status == "SUCCEEDED" || status == "SUCCESSFUL" || status == "COMPLETED" || ev == "COLLECTION.SUCCESS" then
      Success
    else if status == "FAILED" || status == "FAILURE" || ev == "COLLECTION.FAILED" then
      Failed
    else
      Ignored
  }

  predicate SameLetters(a: string, b: string) {
    Upper(a) == Upper(b)
  }

  /** Among ASCII characters the comparison ignores the case of letters, and nothing else. */
  lemma SameLetter(c: char, d: char)
    requires c as int < 128 && d as int < 128
    ensures UpperChar(c) == UpperChar(d) <==>
              c == d || ('A' <= c <= 'Z' && d as int == c as int + 32) || ('A' <= d <= 'Z' && c as int == d as int + 32)
  {
  }

  lemma UpperWords()
    ensures Upper("collection.success") == "COLLECTION.SUCCESS" && Upper("collection.failed") == "COLLECTION.FAILED"
    ensures Upper("succeeded") == "SUCCEEDED" && Upper("successful") == "SUCCESSFUL"
    ensures Upper("completed") == "COMPLETED"
    ensures Upper("failed") == "FAILED" && Upper("failure") == "FAILURE"
  {
  }

  /** Letter case never matters, a success signal beats a failure signal, and an
      event is ignored exactly when neither signal is present. */
  lemma ClassificationLaws(status: string, event: string, status': string, event': string)
    requires SameLetters(status, status') && SameLetters(event, event')
    ensures ClassifyEvent(status, event) == ClassifyEvent(status', event')
    ensures ClassifyEvent(status, event) == Success <==>
              SameLetters(event, "collection.success") || SameLetters(status, "succeeded")
              || SameLetters(status, "successful") || SameLetters(status, "completed")
    ensures ClassifyEvent(status, event) != Success ==>
              (ClassifyEvent(status, event) == Failed <==>
                 || SameLetters(event, "collection.failed")
                 || SameLetters(status, "failed") || SameLetters(status, "failure"))
  {
    UpperWords();
  }
}
