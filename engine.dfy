/**
 * The refresh engine: how generate2FACode reads its arguments, the per-account
 * refresh jobs, one display tick, and the two entry points (the live view and
 * the single-service query).
 *
 * The code-derivation library is the Scheduler's `derive(secret, counter)`,
 * left uninterpreted; `counter` stands for the library's own time counter at
 * the moment of the call and `seconds` for the clock's seconds-of-minute.
 */
module Engine {
  import opened Wrappers
  import opened Countdown
  import Cron
  import opened Accounts

  /** What the entry points throw. */
  datatype Error =
    | NoAccountFound        // the live view or the query has no account to show
    | CallbackNotAFunction  // generate2FACode was given no callable callback
    | AccountsUnavailable   // the store gave the query no collection to filter

  /** The closure updateTotp creates per account: it captures that account alone. */
  datatype Callback = UpdateAccount(account: Account)

  /**
   * The integers a JavaScript number holds exactly, up to 2^53 - 1 in absolute
   * value. A template literal writes these as their exact decimal digits;
   * larger numbers are rounded or written in exponent form.
   */
  type SafeInt = n: int | -9007199254740991 <= n <= 9007199254740991

  /** A JavaScript value in an argument position of generate2FACode. */
  datatype Arg = Undefined | Number(n: SafeInt) | Function(cb: Callback)

  /** A registered recurring job: its cron pattern, the secret it derives from, its callback. */
  datatype Job = Job(pattern: string, secret: string, cb: Callback)

  /** What the engine does, in order: a callback run with a code, a job registered. */
  datatype Event = Emitted(account: Account, code: string) | Registered(pattern: string, account: Account)

  /** One line of the live table: title (the label), code, seconds until expiry. */
  datatype Row = Row(title: Option<string>, code: Option<string>, expiresIn: int)

  /** What the single-service query prints: the code alone, or label, code and countdown. */
  datatype Output =
    | CodeOnly(code: Option<string>)
    | Full(title: Option<string>, code: Option<string>, expiresIn: int)

  /**
   * Argument shifting: a function in the interval position is the callback and
   * the interval becomes 30; otherwise the third argument must be callable.
   * The effective interval is never a function.
   */
  function ShiftArgs(interval: Arg, cb: Arg): (r: Result<(Arg, Callback), Error>)
    ensures r.Ok? ==> !r.value.0.Function?
    ensures interval.Function? ==> r == Ok((Number(DefaultInterval), interval.cb))
    ensures !interval.Function? ==> (r.Ok? <==> cb.Function?)
    ensures !interval.Function? && cb.Function? ==> r.value == (interval, cb.cb)
    ensures r.Err? ==> r.error == CallbackNotAFunction
  {
    if interval.Function? then Ok((Number(DefaultInterval), interval.cb))
    else if cb.Function? then Ok((interval, cb.cb))
    else Err(CallbackNotAFunction)
  }

  /**
   * How the template literal renders a non-function interval: the word
   * `undefined`, or the safe integer in decimal with a leading `-` when negative.
   * The rendering never holds a space, so the pattern keeps its six fields.
   */
  function Show(interval: Arg): (s: string)
    requires !interval.Function?
    ensures interval.Undefined? ==> s == "undefined"
    ensures interval.Number? && interval.n >= 0 ==> s == Cron.Decimal(interval.n)
    ensures interval.Number? && interval.n < 0 ==> s == "-" + Cron.Decimal(-interval.n)
    ensures ' ' !in s
  {
    match interval
    case Undefined => "undefined"
    case Number(n) => if n >= 0 then Cron.Decimal(n) else "-" + Cron.Decimal(-n)
  }

  /** The account whose callback generate2FACode runs. */
  function Callee(interval: Arg, cb: Arg): Account
    requires ShiftArgs(interval, cb).Ok?
  {
    ShiftArgs(interval, cb).value.1.account
  }

  /** The pattern generate2FACode registers its job with. */
  function EffectivePattern(interval: Arg, cb: Arg): string
    requires ShiftArgs(interval, cb).Ok?
  {
    Cron.Pattern(Show(ShiftArgs(interval, cb).value.0))
  }

  /** The account whose callback generate2FACode would run, if any. */
  function Target(interval: Arg, cb: Arg): set<Account> {
    match ShiftArgs(interval, cb)
    case Ok(p) => {p.1.account}
    case Err(_) => {}
  }

  /** The accounts held by a (possibly absent) collection. */
  function Elements(a: array?<Account>): set<Account>
    reads a
  {
    if a == null then {} else set i | 0 <= i < a.Length :: a[i]
  }

  /** The pattern every refresh job is registered with. */
  const DefaultPattern: string := Cron.Pattern(Show(Number(DefaultInterval)))

  /**
   * Whatever the interval argument, the registered pattern has six fields.
   * Its seconds field reads back as a step of 30 when the callback came in the
   * interval position, and as a step of `n` for a non-negative interval `n`.
   * (A cron step of `n` fires at the seconds-of-minute that are multiples of
   * `n`; that is every `n` seconds only when `n` divides 60.)
   */
  lemma EffectiveSchedule(interval: Arg, cb: Arg)
    requires ShiftArgs(interval, cb).Ok?
    ensures |Cron.Fields(EffectivePattern(interval, cb))| == 6
    ensures interval.Function? ==> Cron.SecondsStep(EffectivePattern(interval, cb)) == Some(DefaultInterval)
    ensures interval.Number? && interval.n >= 0 ==>
      Cron.SecondsStep(EffectivePattern(interval, cb)) == Some(interval.n)
  {
    Cron.PatternFields(Show(ShiftArgs(interval, cb).value.0));
    if interval.Function? {
      Cron.PatternOfInterval(DefaultInterval);
    } else if interval.Number? && interval.n >= 0 {
      Cron.PatternOfInterval(interval.n);
    }
  }

  /** The pattern of every refresh job is the literal `*` + `/30 * * * * *`. */
  lemma DefaultPatternEvery30()
    ensures DefaultPattern == "*/30 * * * * *"
    ensures Cron.SecondsStep(DefaultPattern) == Some(30)
    ensures Cron.Fields(DefaultPattern) == ["*/30", "*", "*", "*", "*", "*"]
  {
    assert Cron.Decimal(30) == "30" by {
      assert Cron.Decimal(3) == "3";
    }
    assert "*/" + "30" == "*/30";
    Cron.PatternOfInterval(30);
  }

  /** The job updateTotp registers for account `x`. */
  function JobFor(x: Account): Job {
    Job(DefaultPattern, x.secret, UpdateAccount(x))
  }

  /** The jobs updateTotp registers for `s`, in order. */
  function JobsFor(s: seq<Account>): (r: seq<Job>)
    ensures |r| == |s|
  {
    if s == [] then [] else JobsFor(s[..|s| - 1]) + [JobFor(s[|s| - 1])]
  }

  /** The `i`th job registered for `s` belongs to the `i`th account: its secret, its own callback. */
  lemma {:induction false} JobsForAt(s: seq<Account>, i: nat)
    requires i < |s|
    ensures JobsFor(s)[i] == Job(DefaultPattern, s[i].secret, UpdateAccount(s[i]))
  {
    if i < |s| - 1 {
      JobsForAt(s[..|s| - 1], i);
    }
  }

  /**
   * What updateTotp does for `s`, in order: for each account, its callback
   * runs with the derived code, then its job is registered.
   */
  ghost function StartEvents(derive: (string, int) -> string, s: seq<Account>, counter: int): seq<Event> {
    if s == [] then []
    else
      var x := s[|s| - 1];
      StartEvents(derive, s[..|s| - 1], counter)
        + [Emitted(x, derive(x.secret, counter)), Registered(DefaultPattern, x)]
  }

  /** Starting one more account extends the jobs and the events by that account's own. */
  lemma StartOneMore(derive: (string, int) -> string, s: seq<Account>, i: nat, counter: int)
    requires i < |s|
    ensures JobsFor(s[..i + 1]) == JobsFor(s[..i]) + [JobFor(s[i])]
    ensures StartEvents(derive, s[..i + 1], counter) == StartEvents(derive, s[..i], counter)
      + [Emitted(s[i], derive(s[i].secret, counter)), Registered(DefaultPattern, s[i])]
  {
    assert s[..i + 1][..i] == s[..i];
  }

  /**
   * The jobs registered so far, the code-derivation library, and a ghost
   * record of the order in which callbacks ran and jobs were registered.
   */
  class Scheduler {
    const derive: (string, int) -> string
    var jobs: seq<Job>
    ghost var trace: seq<Event>

    constructor (derive: (string, int) -> string)
      ensures this.derive == derive && jobs == [] && trace == []
    {
      this.derive := derive;
      jobs, trace := [], [];
    }

    /** Account `x` shows its label and the code derived from its own secret. */
    ghost predicate Current(x: Account, counter: int)
      reads x
    {
      x.totp == Some(derive(x.secret, counter)) && x.nameWithIssuer == Some(Label(x.name, x.issuer))
    }

    /**
     * generate2FACode: shift the arguments, run the callback once with a
     * freshly derived code, then register the recurring job. A missing
     * callback throws before anything is registered.
     */
    method GenerateCode(secret: string, interval: Arg, cb: Arg, counter: int) returns (r: Outcome<Error>)
      modifies this, Target(interval, cb)
      ensures ShiftArgs(interval, cb).Err? ==>
        r == Fail(CallbackNotAFunction) && jobs == old(jobs) && trace == old(trace)
      ensures ShiftArgs(interval, cb).Ok? ==> r == Pass
      ensures ShiftArgs(interval, cb).Ok? ==>
        Callee(interval, cb).totp == Some(derive(secret, counter))
        && Callee(interval, cb).nameWithIssuer == Some(Label(Callee(interval, cb).name, Callee(interval, cb).issuer))
      ensures ShiftArgs(interval, cb).Ok? ==>
        jobs == old(jobs) + [Job(EffectivePattern(interval, cb), secret, ShiftArgs(interval, cb).value.1)]
      ensures ShiftArgs(interval, cb).Ok? ==>
        trace == old(trace) + [Emitted(Callee(interval, cb), derive(secret, counter)),
                               Registered(EffectivePattern(interval, cb), Callee(interval, cb))]
    {
      var shifted := ShiftArgs(interval, cb);
      if shifted.Err? {
        return Fail(shifted.error);
      }
      var (effective, f) := shifted.value;
      var code := derive(secret, counter);
      f.account.Publish(code);
      trace := trace + [Emitted(f.account, code)];
      var pattern := Cron.Pattern(Show(effective));
      jobs := jobs + [Job(pattern, secret, f)];
      trace := trace + [Registered(pattern, f.account)];
      r := Pass;
    }

    /**
     * One firing of job `k`: derive a fresh code from the job's secret and run
     * its callback. Only the callback's own account is written. The ghost
     * array `others` adds nothing to the frame: its ensures only spells out,
     * for a caller's collection, that every other account keeps its code and label.
     */
    method Fire(k: nat, counter: int, ghost others: array<Account>)
      requires k < |jobs|
      modifies this`trace, jobs[k].cb.account
      ensures jobs == old(jobs)
      ensures jobs[k].cb.account.totp == Some(derive(jobs[k].secret, counter))
      ensures jobs[k].cb.account.nameWithIssuer
        == Some(Label(jobs[k].cb.account.name, jobs[k].cb.account.issuer))
      ensures trace == old(trace) + [Emitted(jobs[k].cb.account, derive(jobs[k].secret, counter))]
      ensures forall j :: 0 <= j < others.Length && others[j] != jobs[k].cb.account ==>
        others[j].totp == old(others[j].totp) && others[j].nameWithIssuer == old(others[j].nameWithIssuer)
    {
      var job := jobs[k];
      var code := derive(job.secret, counter);
      job.cb.account.Publish(code);
      trace := trace + [Emitted(job.cb.account, code)];
    }

    /**
     * One iteration of updateTotp: generate2FACode with the account's secret
     * and a callback bound to that account alone.
     */
    method StartAccount(account: Account, counter: int)
      modifies this, account
      ensures Current(account, counter)
      ensures jobs == old(jobs) + [JobFor(account)]
      ensures trace == old(trace) + [Emitted(account, derive(account.secret, counter)),
                                     Registered(DefaultPattern, account)]
    {
      assert ShiftArgs(Function(UpdateAccount(account)), Undefined)
        == Ok((Number(DefaultInterval), UpdateAccount(account)));
      var r := GenerateCode(account.secret, Function(UpdateAccount(account)), Undefined, counter);
    }

    /**
     * The `i`th iteration of updateTotp: start `a[i]`. The accounts before it
     * stay current, since the only account written is `a[i]` itself.
     */
    method StartAt(a: array<Account>, i: nat, counter: int)
      requires i < a.Length
      requires forall k :: 0 <= k < i ==> Current(a[k], counter)
      modifies this, a[i]
      ensures forall k :: 0 <= k <= i ==> Current(a[k], counter)
      ensures jobs == old(jobs) + [JobFor(a[i])]
      ensures trace == old(trace) + [Emitted(a[i], derive(a[i].secret, counter)), Registered(DefaultPattern, a[i])]
    {
      StartAccount(a[i], counter);
    }

    /**
     * updateTotp: start one refresh job per account, in array order, each with
     * its own callback. The array keeps its length and order; every account
     * is current when the method returns.
     */
    method UpdateTotp(a: array<Account>, counter: int)
      modifies this, Elements(a)
      ensures a[..] == old(a[..])
      ensures forall i :: 0 <= i < a.Length ==> Current(a[i], counter)
      ensures jobs == old(jobs) + JobsFor(a[..])
      ensures trace == old(trace) + StartEvents(derive, a[..], counter)
    {
      var i := 0;
      while i < a.Length
        invariant 0 <= i <= a.Length
        invariant forall k :: 0 <= k < i ==> Current(a[k], counter)
        invariant jobs == old(jobs) + JobsFor(a[..i])
        invariant trace == old(trace) + StartEvents(derive, a[..i], counter)
      {
        StartOneMore(derive, a[..], i, counter);
        assert a[..][..i + 1] == a[..i + 1] && a[..][..i] == a[..i];
        StartAt(a, i, counter);
        i := i + 1;
      }
      assert a[..i] == a[..];
    }

    /**
     * run: with no collection or an empty one, fail with NoAccountFound and
     * schedule nothing; otherwise start a refresh job for every account.
     */
    method Run(accounts: array?<Account>, counter: int) returns (r: Outcome<Error>)
      modifies this, Elements(accounts)
      ensures accounts == null || accounts.Length == 0 ==> r == Fail(NoAccountFound)
      ensures accounts != null && accounts.Length > 0 ==> r == Pass
      ensures r.Fail? ==> jobs == old(jobs) && trace == old(trace)
      ensures r.Pass? ==> accounts != null
      ensures r.Pass? ==> forall i :: 0 <= i < accounts.Length ==> Current(accounts[i], counter)
      ensures r.Pass? ==> jobs == old(jobs) + JobsFor(accounts[..])
      ensures r.Pass? ==> trace == old(trace) + StartEvents(derive, accounts[..], counter)
    {
      if accounts == null || accounts.Length == 0 {
        return Fail(NoAccountFound);
      }
      UpdateTotp(accounts, counter);
      r := Pass;
    }

    /** The filtered accounts are among the retrieved ones, and hold no account of another name. */
    static lemma SelectedWithin(retrieved: array<Account>, selected: array<Account>, app: string)
      requires selected[..] == FilterByName(retrieved[..], app)
      ensures Elements(selected) <= Elements(retrieved)
      ensures forall i :: 0 <= i < retrieved.Length && retrieved[i].name != app ==>
        retrieved[i] !in Elements(selected)
    {
      forall x | x in Elements(selected) ensures x in Elements(retrieved) {
        var i :| 0 <= i < selected.Length && selected[i] == x;
        assert selected[..][i] in retrieved[..];
      }
    }

    /** Every account named `app` is one of `selected`, so it is current when they all are. */
    lemma MatchesCurrent(retrieved: array<Account>, selected: array<Account>, app: string, counter: int)
      requires selected[..] == FilterByName(retrieved[..], app)
      requires forall k :: 0 <= k < selected.Length ==> Current(selected[k], counter)
      ensures forall i :: 0 <= i < retrieved.Length && retrieved[i].name == app ==> Current(retrieved[i], counter)
    {
      forall i | 0 <= i < retrieved.Length && retrieved[i].name == app
        ensures Current(retrieved[i], counter)
      {
        assert retrieved[..][i] == retrieved[i];
        var k :| 0 <= k < selected.Length && selected[..][k] == retrieved[i];
      }
    }

    /**
     * The middle of getByService: copy the accounts named `app` into a fresh
     * array, in order, and start their refresh jobs. Every account of that
     * name is then current; no account of another name changes.
     */
    method StartMatches(retrieved: array<Account>, app: string, counter: int) returns (selected: array<Account>)
      modifies this, Elements(retrieved)
      ensures selected[..] == FilterByName(retrieved[..], app)
      ensures forall k :: 0 <= k < selected.Length ==> Current(selected[k], counter)
      ensures forall i :: 0 <= i < retrieved.Length && retrieved[i].name == app ==> Current(retrieved[i], counter)
      ensures forall i :: 0 <= i < retrieved.Length && retrieved[i].name != app ==>
        retrieved[i].totp == old(retrieved[i].totp)
        && retrieved[i].nameWithIssuer == old(retrieved[i].nameWithIssuer)
      ensures jobs == old(jobs) + JobsFor(FilterByName(retrieved[..], app))
    {
      var matches := FilterByName(retrieved[..], app);
      ghost var stored := retrieved[..];
      selected := new Account[|matches|](i requires 0 <= i < |matches| => matches[i]);
      assert selected[..] == matches;
      SelectedWithin(retrieved, selected, app);
      UpdateTotp(selected, counter);
      assert retrieved[..] == stored;
      MatchesCurrent(retrieved, selected, app, counter);
    }

    /**
     * getByService: keep the accounts named `app`, fail with NoAccountFound
     * when there are none, start their refresh jobs, and report the first
     * match's code (minimal) or its label, code and countdown.
     */
    method GetByService(app: string, retrieved: array?<Account>, minimal: bool, counter: int, seconds: Second)
      returns (r: Result<Output, Error>)
      modifies this, Elements(retrieved)
      ensures retrieved == null ==> r == Err(AccountsUnavailable) && jobs == old(jobs)
      ensures retrieved != null && SelectFirst(retrieved[..], app).None? ==>
        r == Err(NoAccountFound) && jobs == old(jobs)
      ensures retrieved != null && SelectFirst(retrieved[..], app).Some? ==>
        var first := SelectFirst(retrieved[..], app).value;
        var code := Some(derive(first.secret, counter));
        r == Ok(if minimal then CodeOnly(code)
                else Full(Some(Label(first.name, first.issuer)), code, GetTimeout(DefaultInterval, seconds)))
      ensures retrieved != null ==> forall i :: 0 <= i < retrieved.Length && retrieved[i].name == app ==>
        Current(retrieved[i], counter)
      ensures retrieved != null ==> forall i :: 0 <= i < retrieved.Length && retrieved[i].name != app ==>
        retrieved[i].totp == old(retrieved[i].totp)
        && retrieved[i].nameWithIssuer == old(retrieved[i].nameWithIssuer)
      ensures retrieved != null ==> jobs == old(jobs) + JobsFor(FilterByName(retrieved[..], app))
    {
      if retrieved == null {
        return Err(AccountsUnavailable);
      }
      var matches := FilterByName(retrieved[..], app);
      if |matches| == 0 {
        return Err(NoAccountFound);
      }
      assert SelectFirst(retrieved[..], app) == Some(matches[0]);
      var selected := StartMatches(retrieved, app, counter);
      var first := selected[0];
      if minimal {
        r := Ok(CodeOnly(first.totp));
      } else {
        r := Ok(Full(first.nameWithIssuer, first.totp, GetTimeout(DefaultInterval, seconds)));
      }
    }
  }

  /**
   * One display tick of the live view: one row per account, in array order,
   * each with the account's label, its code and the default countdown.
   * The countdown is computed per row, so `seconds[i]` is the clock's
   * seconds-of-minute when row `i` is built.
   */
  method Tick(accounts: array<Account>, seconds: seq<Second>) returns (table: seq<Row>)
    requires |seconds| == accounts.Length
    ensures |table| == accounts.Length
    ensures forall i :: 0 <= i < accounts.Length ==>
      table[i] == Row(accounts[i].nameWithIssuer, accounts[i].totp, GetTimeout(DefaultInterval, seconds[i]))
    ensures forall i :: 0 <= i < |table| ==> 1 <= table[i].expiresIn <= DefaultInterval
  {
    table := [];
    for i := 0 to accounts.Length
      invariant |table| == i
      invariant forall k :: 0 <= k < i ==>
        table[k] == Row(accounts[k].nameWithIssuer, accounts[k].totp, GetTimeout(DefaultInterval, seconds[k]))
    {
      table := table + [Row(accounts[i].nameWithIssuer, accounts[i].totp, GetTimeout(DefaultInterval, seconds[i]))];
    }
  }

  /**
   * Two accounts on one engine: the live view starts both, a later firing of
   * the first job refreshes only the first account.
   */
  method TwoAccounts(derive: (string, int) -> string)
  {
    var alice := new Account("alice", Some("corp"), "JBSWY3DPEHPK3PXP");
    var bob := new Account("bob", None, "KRSXG5CTMVRXEZLU");
    var accounts := new Account[] [alice, bob];
    var engine := new Scheduler(derive);

    var started := engine.Run(accounts, 1);
    assert started == Pass;
    assert accounts[0] == alice && accounts[1] == bob;
    assert engine.Current(bob, 1);
    JobsForAt(accounts[..], 0);
    assert engine.jobs[0].cb.account == alice;

    engine.Fire(0, 2, accounts);
    assert alice.totp == Some(derive(alice.secret, 2));
    assert Label("alice", Some("corp")) == "corp(alice)";
    assert alice.nameWithIssuer == Some("corp(alice)");
    assert bob.totp == Some(derive(bob.secret, 1));
    assert bob.nameWithIssuer == Some("bob");
  }

  /**
   * A display tick over two published accounts shows both in order, each row
   * with the countdown at its own clock reading.
   */
  method DisplayTick()
  {
    var alice := new Account("alice", Some("corp"), "JBSWY3DPEHPK3PXP");
    var bob := new Account("bob", None, "KRSXG5CTMVRXEZLU");
    alice.Publish("123456");
    bob.Publish("654321");
    assert Label("alice", Some("corp")) == "corp(alice)";
    assert alice.nameWithIssuer == Some("corp(alice)") && alice.totp == Some("123456");
    assert bob.nameWithIssuer == Some("bob") && bob.totp == Some("654321");
    var accounts := new Account[] [alice, bob];
    assert accounts[0] == alice && accounts[1] == bob;

    var clock: seq<Second> := [30, 45];
    var table := Tick(accounts, clock);
    assert table[0].expiresIn == GetTimeout(DefaultInterval, clock[0]) == 30;
    assert table[1].expiresIn == GetTimeout(DefaultInterval, clock[1]);
    assert clock[1] == 45;
    assert table[1].expiresIn == 15;
    assert table[0].title == alice.nameWithIssuer && table[0].code == alice.totp;
    assert table[1].title == bob.nameWithIssuer && table[1].code == bob.totp;
  }

  /** An empty store fails the live view; the query reports the named account only. */
  method EmptyStoreAndQuery(derive: (string, int) -> string)
  {
    var engine := new Scheduler(derive);
    var none := new Account[0];
    var failed := engine.Run(none, 1);
    assert failed == Fail(NoAccountFound) && engine.jobs == [];

    var alice := new Account("alice", Some("corp"), "JBSWY3DPEHPK3PXP");
    var bob := new Account("bob", None, "KRSXG5CTMVRXEZLU");
    var accounts := new Account[] [alice, bob];
    assert accounts[..] == [alice, bob];
    var missing := engine.GetByService("carol", accounts, true, 2, 10);
    assert missing == Err(NoAccountFound);
    var shown := engine.GetByService("bob", accounts, false, 3, 10);
    assert shown == Ok(Full(Some("bob"), Some(derive("KRSXG5CTMVRXEZLU", 3)), 20));
    assert alice.totp == None;
  }
}
