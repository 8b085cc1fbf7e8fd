/**
 * The object-model showcase: an account that accepts credits and raises a
 * balance-changed event, an auditor that forwards it, currencies with
 * normalised codes and a conversion rounded to cents, and the
 * subscription-tier flags.
 *
 * `decimal` amounts are exact rationals (`real`); the 28-digit precision
 * and overflow of `decimal` are not modelled.
 */
module Account {
  import opened Wrappers
  import opened Exceptions
  import opened Text

  // ---------------------------------------------------------------------
  // Subscription tiers: a [Flags] enum over a 32-bit int

  type Tier = bv32

  const Standard: Tier := 0
  const Premium: Tier := 1
  const Analytics: Tier := 2
  const Support: Tier := 4

  /** `Enum.HasFlag`: every bit of `flag` is set in `value`. */
  predicate HasFlag(value: Tier, flag: Tier) {
    value & flag == flag
  }

  predicate IsPowerOfTwo(x: bv32) {
    x != 0 && x & (x - 1) == 0
  }

  /** The named flags are distinct single bits, and `Standard` is no bit at all. */
  lemma TierFlagsAreBits()
    ensures Standard == 0
    ensures IsPowerOfTwo(Premium) && IsPowerOfTwo(Analytics) && IsPowerOfTwo(Support)
    ensures Premium & Analytics == 0 && Premium & Support == 0 && Analytics & Support == 0
  {
  }

  /** A combination has each of its parts. */
  lemma HasFlagOfUnion(a: Tier, b: Tier)
    ensures HasFlag(a | b, a) && HasFlag(a | b, b)
  {
  }

  /** Every value "has" `Standard`, and `Standard` has no other flag. */
  lemma StandardIsNoFlag(a: Tier)
    ensures HasFlag(a, Standard)
    ensures HasFlag(Standard, a) <==> a == Standard
  {
  }

  /** The showcase's two accounts: `Premium | Analytics` is premium, `Standard` is not. */
  lemma ShowcaseTiers()
    ensures HasFlag(Premium | Analytics, Premium)
    ensures !HasFlag(Standard, Premium)
    ensures !HasFlag(Premium | Analytics, Support)
  {
  }

  // ---------------------------------------------------------------------
  // Currency

  /** A currency; `FromCode` is the only way to make one, so its code is non-empty upper case. */
  datatype Currency = Currency(code: string)

  predicate ValidCurrency(c: Currency) {
    c.code != [] && forall i :: 0 <= i < |c.code| ==> !IsLower(c.code[i])
  }

  /** `Currency.FromCode`: rejects a null or empty code, stores it upper-cased. */
  function FromCode(code: Option<string>): (r: Result<Currency, Exception>)
    ensures code.None? ==> r == Failure(ArgumentNull("code"))
    ensures code == Some("") ==> r == Failure(ArgumentEmpty("code"))
    ensures r.Success? <==> code.Some? && code.value != ""
    ensures r.Success? ==> ValidCurrency(r.value) && EqualsIgnoreCase(r.value.code, code.value)
    ensures r.Success? ==> |r.value.code| == |code.value| &&
                           forall i :: 0 <= i < |code.value| && !IsLower(code.value[i]) ==> r.value.code[i] == code.value[i]
  {
    match code
    case None => Failure(ArgumentNull("code"))
    case Some(c) =>
      if c == "" then Failure(ArgumentEmpty("code"))
      else
        UpperNormalises(c);
        Success(Currency(Upper(c)))
  }

  /** Normalisation is idempotent: rebuilding a currency from its own code gives it back. */
  lemma FromCodeIdempotent(code: Option<string>)
    requires FromCode(code).Success?
    ensures FromCode(Some(FromCode(code).value.code)) == FromCode(code)
  {
    UpperNormalises(code.value);
  }

  /** Two codes name the same currency exactly when they are equal ignoring case. */
  lemma FromCodeIgnoresCase(a: string, b: string)
    requires a != "" && b != ""
    ensures FromCode(Some(a)) == FromCode(Some(b)) <==> EqualsIgnoreCase(a, b)
  {
  }

  /** `Math.Round(x, 2, MidpointRounding.AwayFromZero)`, as a whole number of cents. */
  function RoundToCents(x: real): (cents: int)
    ensures x >= 0.0 ==> cents as real - 0.5 <= 100.0 * x < cents as real + 0.5
    ensures x < 0.0 ==> cents as real - 0.5 < 100.0 * x <= cents as real + 0.5
  {
    if x >= 0.0 then (100.0 * x + 0.5).Floor else -((0.5 - 100.0 * x).Floor)
  }

  /** The bounds above pin the rounding down: no other number of cents meets them. */
  lemma RoundToCentsUnique(x: real, c: int)
    requires x >= 0.0 ==> c as real - 0.5 <= 100.0 * x < c as real + 0.5
    requires x < 0.0 ==> c as real - 0.5 < 100.0 * x <= c as real + 0.5
    ensures c == RoundToCents(x)
  {
    var d := RoundToCents(x);
    assert (c - d) as real < 1.0 && (d - c) as real < 1.0;
  }

  /** `Math.Round(x, 2, MidpointRounding.AwayFromZero)` as an amount: a whole number of cents near `x`. */
  function Round2(x: real): (r: real)
    ensures r * 100.0 == RoundToCents(x) as real
    ensures -0.005 <= r - x <= 0.005
  {
    RoundToCents(x) as real / 100.0
  }

  /** Rounding is symmetric about zero, so a midpoint always moves away from zero. */
  lemma RoundToCentsSymmetric(x: real)
    ensures RoundToCents(-x) == -RoundToCents(x)
  {
    if x != 0.0 {
      RoundToCentsUnique(-x, -RoundToCents(x));
    }
  }

  /** Midpoints go away from zero: half a cent rounds up in magnitude on both sides. */
  lemma MidpointsAwayFromZero(n: int)
    ensures RoundToCents((n as real + 0.5) / 100.0) == (if n >= 0 then n + 1 else n)
    ensures RoundToCents((n as real - 0.5) / 100.0) == (if n > 0 then n else n - 1)
  {
    var up := (n as real + 0.5) / 100.0;
    var down := (n as real - 0.5) / 100.0;
    assert 100.0 * up == n as real + 0.5;
    assert 100.0 * down == n as real - 0.5;
    RoundToCentsUnique(up, if n >= 0 then n + 1 else n);
    RoundToCentsUnique(down, if n > 0 then n else n - 1);
  }

  /** An amount already in whole cents is left alone: rounding is idempotent. */
  lemma RoundWholeCents(n: int)
    ensures RoundToCents(n as real / 100.0) == n
    ensures Round2(Round2(n as real / 100.0)) == Round2(n as real / 100.0)
  {
    assert 100.0 * (n as real / 100.0) == n as real;
    RoundToCentsUnique(n as real / 100.0, n);
  }

  /** `Currency.ConvertTo`: the amount itself for the same currency, otherwise amount × rate rounded to cents. */
  function ConvertTo(source: Currency, amount: real, target: Currency, rate: real): (r: real)
    ensures EqualsIgnoreCase(target.code, source.code) ==> r == amount
    ensures !EqualsIgnoreCase(target.code, source.code) ==>
              r == RoundToCents(amount * rate) as real / 100.0 && -0.005 <= r - amount * rate <= 0.005
  {
    if EqualsIgnoreCase(target.code, source.code) then amount else Round2(amount * rate)
  }

  /** Conversion between currencies made from codes equal ignoring case is the identity, whatever the rate. */
  lemma ConvertSameCode(a: string, b: string, amount: real, rate: real)
    requires FromCode(Some(a)).Success? && FromCode(Some(b)).Success?
    requires EqualsIgnoreCase(a, b)
    ensures ConvertTo(FromCode(Some(a)).value, amount, FromCode(Some(b)).value, rate) == amount
  {
    UpperNormalises(a);
    UpperNormalises(b);
  }

  // ---------------------------------------------------------------------
  // Accounts and the balance-changed event

  datatype BalanceChanged = BalanceChanged(accountId: string, previousBalance: real, newBalance: real)

  /** Who raised a notification: the account itself or the auditor re-raising it. */
  datatype Sender = AccountSender(id: string) | AuditorSender

  datatype Notification = Notification(sender: Sender, args: BalanceChanged)

  datatype CustomerAccount = CustomerAccount(
    id: string,
    preferredCurrency: Currency,
    preferredTier: Tier,
    balance: real,
    auditorSubscriptions: nat)   // times `AccountAuditor.Subscribe` was called on this account

  /** `new CustomerAccount(id)` with its initialiser defaults. */
  function NewAccount(id: string): (a: CustomerAccount)
    ensures a.balance == 0.0 && a.preferredTier == Standard && a.preferredCurrency == Currency("USD")
    ensures ValidCurrency(a.preferredCurrency)
  {
    CustomerAccount(id, Currency("USD"), Standard, 0.0, 0)
  }

  /** `AccountAuditor.Subscribe`: one more handler on the account's event. */
  function Subscribe(a: CustomerAccount): CustomerAccount {
    a.(auditorSubscriptions := a.auditorSubscriptions + 1)
  }

  /** The result of `Credit`: the account afterwards, and the event args or the exception. */
  datatype Credited = Credited(account: CustomerAccount, raised: Result<BalanceChanged, Exception>)

  /** `CustomerAccount.Credit`: a positive amount is added and announced; anything else is refused. */
  function Credit(a: CustomerAccount, amount: real): (r: Credited)
    ensures amount <= 0.0 ==> r.account == a && r.raised == Failure(ArgumentOutOfRange("amount"))
    ensures amount > 0.0 ==> r.raised.Success? && r.account.balance == a.balance + amount
    ensures amount > 0.0 ==> r.account.balance > a.balance
    ensures r.raised.Success? ==> r.raised.value.accountId == a.id &&
                                  r.raised.value.previousBalance == a.balance &&
                                  r.raised.value.newBalance == r.account.balance
    ensures r.account.id == a.id && r.account.preferredCurrency == a.preferredCurrency
    ensures r.account.preferredTier == a.preferredTier && r.account.auditorSubscriptions == a.auditorSubscriptions
  {
    if amount <= 0.0 then Credited(a, Failure(ArgumentOutOfRange("amount")))
    else
      var previous := a.balance;
      var updated := a.(balance := a.balance + amount);
      Credited(updated, Success(BalanceChanged(a.id, previous, updated.balance)))
  }

  /** What the auditor's own subscribers receive for one event: one re-raise per subscription. */
  function AuditorForwards(a: CustomerAccount, args: BalanceChanged): (r: seq<Notification>)
    ensures |r| == a.auditorSubscriptions
    ensures forall k :: 0 <= k < |r| ==> r[k].args == args && r[k].sender == AuditorSender
  {
    seq(a.auditorSubscriptions, _ => Notification(AuditorSender, args))
  }

  /**
   * What the auditor's subscribers see of one credit: for a positive amount,
   * one re-raise per subscription, each carrying the balance before and
   * after; for a refused amount the account raises nothing, so nothing is
   * forwarded.
   */
  lemma CreditIsForwarded(a: CustomerAccount, amount: real)
    ensures amount > 0.0 ==>
              var forwarded := AuditorForwards(Credit(a, amount).account, Credit(a, amount).raised.value);
              && |forwarded| == a.auditorSubscriptions
              && forall n :: n in forwarded ==>
                   n.sender == AuditorSender && n.args.accountId == a.id &&
                   n.args.previousBalance == a.balance && n.args.newBalance == a.balance + amount
    ensures amount <= 0.0 ==> Credit(a, amount).raised.Failure?
  {
  }

  /** The showcase's `HighValuePredicate`. */
  predicate HighValue(balance: real) {
    balance >= 1000.0
  }

  /** Credits only raise the balance, so a high-value account stays high-value. */
  lemma HighValueIsKept(a: CustomerAccount, amount: real)
    requires HighValue(a.balance)
    ensures HighValue(Credit(a, amount).account.balance)
  {
  }

  function Sum(amounts: seq<real>): real {
    if amounts == [] then 0.0 else amounts[0] + Sum(amounts[1..])
  }

  /** A run of credits, stopping at the first refused amount (its exception ends the run). */
  function CreditAll(a: CustomerAccount, amounts: seq<real>): (r: (CustomerAccount, seq<BalanceChanged>, Option<Exception>))
    decreases |amounts|
  {
    if amounts == [] then (a, [], None)
    else
      var c := Credit(a, amounts[0]);
      match c.raised
      case Failure(e) => (a, [], Some(e))
      case Success(args) =>
        var rest := CreditAll(c.account, amounts[1..]);
        (rest.0, [args] + rest.1, rest.2)
  }

  /**
   * The events of a run of positive credits form a chain: the first starts
   * at the opening balance, each starts where the previous ended, the last
   * ends at the closing balance, which is the opening one plus the total.
   */
  lemma {:induction false} CreditChain(a: CustomerAccount, amounts: seq<real>)
    requires forall k :: 0 <= k < |amounts| ==> amounts[k] > 0.0
    ensures CreditAll(a, amounts).2.None?
    ensures |CreditAll(a, amounts).1| == |amounts|
    ensures CreditAll(a, amounts).0.balance == a.balance + Sum(amounts)
    ensures amounts != [] ==> CreditAll(a, amounts).1[0].previousBalance == a.balance
    ensures amounts != [] ==> CreditAll(a, amounts).1[|amounts| - 1].newBalance == CreditAll(a, amounts).0.balance
    ensures forall k :: 0 <= k < |amounts| - 1 ==>
              CreditAll(a, amounts).1[k].newBalance == CreditAll(a, amounts).1[k + 1].previousBalance
    decreases |amounts|
  {
    if amounts != [] {
      var c := Credit(a, amounts[0]);
      CreditChain(c.account, amounts[1..]);
      var rest := CreditAll(c.account, amounts[1..]);
      var evs := CreditAll(a, amounts).1;
      assert evs == [c.raised.value] + rest.1;
      if |amounts| > 1 {
        assert rest.1[0].previousBalance == c.account.balance;
      }
    }
  }

  /** The showcase: a fresh account credited 1250 raises one high-value change from 0 to 1250. */
  lemma ShowcaseCredit(id: string)
    ensures Credit(Subscribe(NewAccount(id)), 1250.0).raised == Success(BalanceChanged(id, 0.0, 1250.0))
    ensures HighValue(1250.0)
    ensures |AuditorForwards(Subscribe(NewAccount(id)), BalanceChanged(id, 0.0, 1250.0))| == 1
  {
  }
}
