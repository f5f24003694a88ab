/** `subaccounts`: the SSH keys of the users, and the launch guard that keeps every user's running cost
    within the limit. Costs are in tenths. */
module SpendLimit {
  import opened Common
  import opened InstanceTypes
  import opened KeyOwnership

  const SPEND_LIMIT: int := 600

  // ---- Creating keys -------------------------------------------------------------------

  predicate KeyChar(c: char) {
    c == '-' || c == '_' || 'a' <= c <= 'z' || 'A' <= c <= 'Z' || '0' <= c <= '9'
  }

  /** `re.sub(r'[^-a-zA-Z0-9_]', '', name)`. */
  function Sanitized(name: string): string {
    if name == [] then [] else (if KeyChar(name[0]) then [name[0]] else []) + Sanitized(name[1..])
  }

  function FullName(user: string, name: string): string {
    var clean := Sanitized(name);
    if user + "-" <= clean then clean else user + "-" + clean
  }

  /** Sanitizing goes character by character. */
  lemma {:induction false} SanitizedConcat(a: string, b: string)
    ensures Sanitized(a + b) == Sanitized(a) + Sanitized(b)
  {
    if a == [] {
      assert a + b == b;
    } else {
      var first := if KeyChar(a[0]) then [a[0]] else [];
      SanitizedConcat(a[1..], b);
      calc {
        Sanitized(a + b);
        { assert (a + b)[0] == a[0] && (a + b)[1..] == a[1..] + b; }
        first + Sanitized(a[1..] + b);
        first + (Sanitized(a[1..]) + Sanitized(b));
        (first + Sanitized(a[1..])) + Sanitized(b);
        Sanitized(a) + Sanitized(b);
      }
    }
  }

  /** It keeps the letters, the digits, `-` and `_`, and drops everything else. */
  lemma SanitizedOne(c: char)
    ensures Sanitized([c]) == if c in "-_" || '0' <= c <= '9' || 'A' <= c <= 'Z' || 'a' <= c <= 'z' then [c] else []
  {
    assert [c][1..] == [];
  }

  /** A sanitized name that begins with the user's and a dash is the key's, any other follows them; so two names that
      do not give the same key exactly when they are the same sanitized. */
  lemma FullNameIff(user: string, a: string, b: string)
    ensures user + "-" <= Sanitized(a) ==> FullName(user, a) == Sanitized(a)
    ensures !(user + "-" <= Sanitized(a)) ==> FullName(user, a) == user + "-" + Sanitized(a)
    ensures !(user + "-" <= Sanitized(a)) && !(user + "-" <= Sanitized(b)) ==>
              (FullName(user, a) == FullName(user, b) <==> Sanitized(a) == Sanitized(b))
  {
    var prefix := user + "-";
    assert (prefix + Sanitized(a))[|prefix|..] == Sanitized(a);
    assert (prefix + Sanitized(b))[|prefix|..] == Sanitized(b);
  }

  class SshKeys {
    var userOf: map<string, string>

    /** Every key in the table is named after the user it is registered to. */
    ghost predicate Valid()
      reads this
    {
      forall k <- userOf :: KeyOf(userOf[k], k)
    }

    constructor ()
      ensures Valid() && userOf == map[]
    {
      userOf := map[];
    }

    /** `create_ssh_key`: inserting or replacing a row takes no key from another account. */
    method CreateSshKey(user: string, name: string)
      requires Valid()
      modifies this
      ensures Valid() && userOf == old(userOf)[FullName(user, name) := user]
      ensures KeyOf(user, FullName(user, name))
      ensures AccountName(user) ==>
                forall k <- old(userOf) :: AccountName(old(userOf)[k]) ==> userOf[k] == old(userOf)[k]
    {
      var full := FullName(user, name);
      if full in userOf && AccountName(user) && AccountName(userOf[full]) {
        OneOwner(user, userOf[full], full);
      }
      userOf := userOf[full := user];
    }
  }

  // ---- Running cost --------------------------------------------------------------------

  datatype Instance = Instance(kind: Kind, key: string, terminated: bool)

  predicate RunningFor(i: Instance, user: string) {
    KeyOf(user, i.key) && !i.terminated
  }

  function Price(kind: Kind): nat {
    if CostTenths(kind).Some? then CostTenths(kind).value else 0
  }

  /** `cost_instances` of a user. */
  function CostOf(cloud: seq<Instance>, user: string): nat {
    if cloud == [] then 0
    else
      var n := |cloud| - 1;
      CostOf(cloud[..n], user) + if RunningFor(cloud[n], user) then Price(cloud[n].kind) else 0
  }

  predicate Priced(cloud: seq<Instance>, user: string) {
    forall i <- cloud :: RunningFor(i, user) ==> CostTenths(i.kind).Some?
  }

  datatype Error = KeyError | BadKey | TooCostly | Rejected

  function Copies(count: nat, kind: Kind, key: string): (r: seq<Instance>)
    ensures |r| == count
  {
    seq(count, _ => Instance(kind, key, false))
  }

  /** `run_instances` on demand; the cloud itself rejects a count below one. */
  function Launch(cloud: seq<Instance>, user: string, kind: Kind, count: int, key: string)
    : Result<seq<Instance>, Error>
  {
    if !Priced(cloud, user) || CostTenths(kind).None? then Err(KeyError)
    else if !(user <= key) then Err(BadKey)
    else if CostOf(cloud, user) + Price(kind) * count > SPEND_LIMIT then Err(TooCostly)
    else if count < 1 then Err(Rejected)
    else Ok(cloud + Copies(count, kind, key))
  }

  /** The user's running instances, in the cloud's order. */
  function Running(cloud: seq<Instance>, user: string): seq<Instance> {
    if cloud == [] then []
    else
      var n := |cloud| - 1;
      Running(cloud[..n], user) + if RunningFor(cloud[n], user) then [cloud[n]] else []
  }

  class Cloud {
    var instances: seq<Instance>

    constructor ()
      ensures instances == []
    {
      instances := [];
    }

    /** `running_instances`: first by key, then without the terminated ones. */
    method RunningInstances(user: string) returns (result: seq<Instance>)
      ensures result == Running(instances, user)
    {
      result := [];
      for n := 0 to |instances|
        invariant result == Running(instances[..n], user)
      {
        assert instances[..n + 1][..n] == instances[..n];
        if KeyOf(user, instances[n].key) && !instances[n].terminated {
          result := result + [instances[n]];
        }
      }
      assert instances[..|instances|] == instances;
    }

    /** `cost_instances`; `None` stands for the KeyError of a type without a price. */
    method CostInstances(user: string) returns (cost: Option<nat>)
      ensures cost == if Priced(instances, user) then Some(CostOf(instances, user)) else None
    {
      var running := RunningInstances(user);
      RunningIsPriced(instances, user);
      var sum := 0;
      for n := 0 to |running|
        invariant forall i :: 0 <= i < n ==> CostTenths(running[i].kind).Some?
        invariant sum == PriceSum(running[..n])
      {
        assert running[n] in running && running[..n + 1][..n] == running[..n];
        if CostTenths(running[n].kind).None? {
          return None;
        }
        sum := sum + CostTenths(running[n].kind).value;
      }
      assert running[..|running|] == running;
      cost := Some(sum);
    }

    /** `run_instances` on demand. */
    method RunInstances(user: string, kind: Kind, count: int, key: string) returns (error: Option<Error>)
      modifies this
      ensures match Launch(old(instances), user, kind, count, key)
              case Ok(after) => error == None && instances == after
              case Err(e) => error == Some(e) && instances == old(instances)
    {
      var oldCost := CostInstances(user);
      if oldCost.None? || CostTenths(kind).None? {
        return Some(KeyError);
      }
      var extraCost := CostTenths(kind).value * count;
      if !(user <= key) {
        return Some(BadKey);
      }
      if oldCost.value + extraCost > SPEND_LIMIT {
        return Some(TooCostly);
      }
      if count < 1 {
        return Some(Rejected);
      }
      instances := instances + Copies(count, kind, key);
      error := None;
    }
  }

  predicate Live(i: Instance, user: string) {
    !i.terminated && user + "-" <= i.key
  }

  /** `list` is what `cloud` holds at the positions `at`, which are in order and are those of the live instances. */
  ghost predicate Lists(list: seq<Instance>, cloud: seq<Instance>, at: seq<nat>, user: string) {
    && |at| == |list|
    && (forall j :: 0 <= j < |at| ==> at[j] < |cloud| && list[j] == cloud[at[j]])
    && (forall j, k :: 0 <= j < k < |at| ==> at[j] < at[k])
    && (forall i: nat :: i < |cloud| && Live(cloud[i], user) ==> i in at)
    && (forall j :: 0 <= j < |at| ==> Live(list[j], user))
  }

  lemma ListsOneMore(list: seq<Instance>, cloud: seq<Instance>, at: seq<nat>, user: string, x: Instance)
    requires Lists(list, cloud, at, user)
    ensures Live(x, user) ==> Lists(list + [x], cloud + [x], at + [|cloud|], user)
    ensures !Live(x, user) ==> Lists(list, cloud + [x], at, user)
  {
    assert forall i: nat :: i < |cloud| ==> (cloud + [x])[i] == cloud[i];
  }

  /** The list of running instances is the cloud's, in its order, without those that are terminated or whose key
      does not begin with the user's name and a dash. */
  lemma {:induction false} RunningIsLive(cloud: seq<Instance>, user: string) returns (at: seq<nat>)
    ensures Lists(Running(cloud, user), cloud, at, user)
    decreases |cloud|
  {
    if cloud == [] {
      at := [];
    } else {
      var n := |cloud| - 1;
      at := RunningIsLive(cloud[..n], user);
      ListsOneMore(Running(cloud[..n], user), cloud[..n], at, user, cloud[n]);
      assert cloud[..n] + [cloud[n]] == cloud;
      assert Running(cloud[..n], user) + [] == Running(cloud[..n], user);
      if Live(cloud[n], user) {
        at := at + [n];
      }
    }
  }

  function PriceSum(list: seq<Instance>): nat {
    if list == [] then 0 else PriceSum(list[..|list| - 1]) + Price(list[|list| - 1].kind)
  }

  lemma {:induction false} RunningMembers(cloud: seq<Instance>, user: string, i: Instance)
    ensures i in Running(cloud, user) <==> i in cloud && RunningFor(i, user)
    decreases |cloud|
  {
    if cloud == [] {
    } else {
      var n := |cloud| - 1;
      RunningMembers(cloud[..n], user, i);
      assert i in cloud <==> i in cloud[..n] || i == cloud[n];
    }
  }

  lemma {:induction false} RunningSum(cloud: seq<Instance>, user: string)
    ensures PriceSum(Running(cloud, user)) == CostOf(cloud, user)
    decreases |cloud|
  {
    if cloud == [] {
    } else {
      var n := |cloud| - 1;
      RunningSum(cloud[..n], user);
      var rest := Running(cloud[..n], user);
      assert (rest + [cloud[n]])[..|rest|] == rest;
      assert rest + [] == rest;
    }
  }

  /** Adding up the prices of the running instances gives the user's cost. */
  lemma RunningIsPriced(cloud: seq<Instance>, user: string)
    ensures PriceSum(Running(cloud, user)) == CostOf(cloud, user)
    ensures Priced(cloud, user) <==> forall i <- Running(cloud, user) :: CostTenths(i.kind).Some?
  {
    RunningSum(cloud, user);
    forall i: Instance
      ensures i in Running(cloud, user) <==> i in cloud && RunningFor(i, user)
    {
      RunningMembers(cloud, user, i);
    }
  }

  lemma {:induction false} CostOfMore(cloud: seq<Instance>, count: nat, kind: Kind, key: string, user: string)
    ensures CostOf(cloud + Copies(count, kind, key), user)
            == CostOf(cloud, user) + if KeyOf(user, key) then Price(kind) * count else 0
    decreases count
  {
    var all := cloud + Copies(count, kind, key);
    if count == 0 {
      assert all == cloud;
    } else {
      assert all[..|all| - 1] == cloud + Copies(count - 1, kind, key);
      CostOfMore(cloud, count - 1, kind, key, user);
    }
  }

  /** Terminating an instance that is live lowers its user's cost by its price, and changes no other cost. */
  lemma {:induction false} TerminatingCredits(cloud: seq<Instance>, i: nat, user: string)
    requires i < |cloud|
    ensures CostOf(cloud[i := cloud[i].(terminated := true)], user)
            == CostOf(cloud, user) - if Live(cloud[i], user) then Price(cloud[i].kind) else 0
    decreases |cloud|
  {
    var n, after := |cloud| - 1, cloud[i := cloud[i].(terminated := true)];
    if i == n {
      assert after[..n] == cloud[..n];
    } else {
      assert after[..n] == cloud[..n][i := cloud[i].(terminated := true)];
      TerminatingCredits(cloud[..n], i, user);
    }
  }

  // ---- Whole runs ----------------------------------------------------------------------

  datatype Step =
    | Run(user: string, kind: Kind, count: int, key: string)
    | Terminate(index: nat)

  /** A rejected launch changes nothing. */
  function Do(cloud: seq<Instance>, step: Step): seq<Instance> {
    match step
    case Run(user, kind, count, key) =>
      var r := Launch(cloud, user, kind, count, key);
      if r.Ok? then r.value else cloud
    case Terminate(i) => if i < |cloud| then cloud[i := cloud[i].(terminated := true)] else cloud
  }

  function DoAll(cloud: seq<Instance>, steps: seq<Step>): seq<Instance>
    decreases |steps|
  {
    if steps == [] then cloud else DoAll(Do(cloud, steps[0]), steps[1..])
  }

  predicate Within(cloud: seq<Instance>, user: string) {
    CostOf(cloud, user) <= SPEND_LIMIT
  }

  /** No other user's launch that passes the guard carries a key of `user`. */
  predicate OthersKeepOff(steps: seq<Step>, user: string) {
    forall s <- steps :: KeepsOff(s, user)
  }

  predicate KeepsOff(step: Step, user: string) {
    step.Run? && step.user != user && step.user <= step.key ==> !KeyOf(user, step.key)
  }

  lemma StepWithin(cloud: seq<Instance>, step: Step, user: string)
    requires Within(cloud, user) && KeepsOff(step, user)
    ensures Within(Do(cloud, step), user)
    ensures step.Run? && step.user != user ==> CostOf(Do(cloud, step), user) == CostOf(cloud, user)
  {
    match step
    case Run(u, kind, count, key) =>
      if Launch(cloud, u, kind, count, key).Ok? {
        CostOfMore(cloud, count, kind, key, user);
      }
    case Terminate(i) =>
      if i < |cloud| {
        TerminatingCredits(cloud, i, user);
      }
  }

  lemma {:induction false} RunWithin(cloud: seq<Instance>, steps: seq<Step>, user: string)
    requires Within(cloud, user) && OthersKeepOff(steps, user)
    ensures Within(DoAll(cloud, steps), user)
    decreases |steps|
  {
    if steps == [] {
    } else {
      assert steps[0] in steps && forall s <- steps[1..] :: s in steps;
      StepWithin(cloud, steps[0], user);
      RunWithin(Do(cloud, steps[0]), steps[1..], user);
    }
  }

  /** Every launch uses a key of the launching account. */
  predicate OwnKeys(steps: seq<Step>) {
    forall s <- steps :: s.Run? ==> AccountName(s.user) && KeyOf(s.user, s.key)
  }

  /** Over any sequence of launches by accounts with their own keys and terminations, every account's
      running cost stays within the limit. */
  lemma OwnKeysStayWithin(cloud: seq<Instance>, steps: seq<Step>, user: string)
    requires OwnKeys(steps) && AccountName(user) && Within(cloud, user)
    ensures Within(DoAll(cloud, steps), user)
  {
    forall s | s in steps
      ensures KeepsOff(s, user)
    {
      if s.Run? && s.user != user && KeyOf(user, s.key) {
        OneOwner(user, s.user, s.key);
      }
    }
    RunWithin(cloud, steps, user);
  }

  // ---- Whatever key the guard lets through ----------------------------------------------

  predicate LaunchedBy(steps: seq<Step>, users: set<string>) {
    forall s <- steps :: s.Run? ==> s.user in users
  }

  /** Whatever the accounts launch, with whatever keys, none of them gets over the limit. */
  ghost predicate AlwaysWithin(users: set<string>) {
    forall cloud, steps, user :: user in users && LaunchedBy(steps, users) && Within(cloud, user) ==>
      Within(DoAll(cloud, steps), user)
  }

  predicate PrefixFree(users: set<string>) {
    forall u <- users, v <- users :: u != v ==> !(u <= v)
  }

  /** The guard, which compares the key with the user's name alone, keeps every account within the limit over
      every run exactly when no account's name begins with another's. */
  lemma EveryoneStaysWithinIff(users: set<string>)
    requires forall u <- users :: AccountName(u)
    ensures AlwaysWithin(users) <==> PrefixFree(users)
  {
    if PrefixFree(users) {
      forall cloud, steps, user | user in users && LaunchedBy(steps, users) && Within(cloud, user)
        ensures Within(DoAll(cloud, steps), user)
      {
        PrefixFreeKeepsOff(users, steps, user);
        RunWithin(cloud, steps, user);
      }
    } else {
      var u, v :| u in users && v in users && u != v && u <= v;
      var steps := GuardMissesTheDash(u, v);
      assert LaunchedBy(steps, users) && Within([], v) && !Within(DoAll([], steps), v);
    }
  }

  lemma PrefixFreeKeepsOff(users: set<string>, steps: seq<Step>, user: string)
    requires forall u <- users :: AccountName(u)
    requires PrefixFree(users) && user in users && LaunchedBy(steps, users)
    ensures OthersKeepOff(steps, user)
  {
    forall s | s in steps
      ensures KeepsOff(s, user)
    {
      if s.Run? && s.user != user {
        SharedPrefixIff(s.user, user);
      }
    }
  }

  lemma TwoSteps(cloud: seq<Instance>, first: Step, second: Step)
    ensures DoAll(cloud, [first, second]) == Do(Do(cloud, first), second)
  {
    assert [first, second][1..] == [second];
    assert [second][1..] == [];
    assert DoAll(Do(cloud, first), [second]) == Do(Do(cloud, first), second);
  }

  /** The guard asks only that the key start with the user's name, without the dash: when the account `v` has
      used up its limit, any account `u` whose name begins `v`'s can launch one more instance with `v`'s key. */
  lemma GuardMissesTheDash(u: string, v: string) returns (steps: seq<Step>)
    requires AccountName(u) && AccountName(v) && u != v && u <= v
    ensures LaunchedBy(steps, {u, v}) && !Within(DoAll([], steps), v)
    ensures |steps| == 2 && steps[1].Run? && steps[1].user == u && Within(Do([], steps[0]), v)
  {
    var key := v + "-";
    var first, second := Run(v, M1Small, 60, key), Run(u, T1Micro, 1, key);
    var cloud := [] + Copies(60, M1Small, key);
    assert u <= key && KeyOf(v, key) && !KeyOf(u, key) by {
      if KeyOf(u, key) {
        OneOwner(u, v, key);
      }
    }
    CostOfMore([], 60, M1Small, key, v);
    CostOfMore([], 60, M1Small, key, u);
    CostOfMore(cloud, 1, T1Micro, key, v);
    assert Do([], first) == cloud;
    assert Do(cloud, second) == cloud + Copies(1, T1Micro, key);
    TwoSteps([], first, second);
    steps := [first, second];
  }

  /** What becomes of a launch: an unknown price comes first, then the key, the limit and the count. */
  lemma LaunchIff(cloud: seq<Instance>, u: string, kind: Kind, count: int, key: string)
    ensures var r := Launch(cloud, u, kind, count, key);
            var priced := CostTenths(kind).Some? && forall i <- cloud :: Live(i, u) ==> CostTenths(i.kind).Some?;
            && (r == Err(KeyError) <==> !priced)
            && (r == Err(BadKey) <==> priced && !(u <= key))
            && (r == Err(TooCostly) <==> priced && u <= key && CostOf(cloud, u) + Price(kind) * count > 600)
            && (r == Err(Rejected) <==>
                  priced && u <= key && CostOf(cloud, u) + Price(kind) * count <= 600 && count < 1)
            && (r.Ok? ==> |r.value| == |cloud| + count && cloud <= r.value
                          && forall i <- r.value[|cloud|..] :: i == Instance(kind, key, false))
  {
  }

  /** An accepted launch is charged to exactly the users whose key it carries, and leaves the launching user
      within the limit. */
  lemma LaunchCharges(cloud: seq<Instance>, u: string, kind: Kind, count: int, key: string, user: string)
    requires Launch(cloud, u, kind, count, key).Ok?
    ensures var after := Launch(cloud, u, kind, count, key).value;
            && CostOf(after, user) == CostOf(cloud, user) + (if KeyOf(user, key) then Price(kind) * count else 0)
            && (CostOf(after, user) == CostOf(cloud, user) <==> !KeyOf(user, key))
            && (user == u && Within(cloud, u) ==> Within(after, u))
  {
    CostOfMore(cloud, count, kind, key, user);
    if KeyOf(user, key) {
      assert Price(kind) >= 2 && Price(kind) * count > 0;
    }
  }
}
