/** `contracts/wallet/src/contract.rs` and the request side of the SDK: what a wallet contract does
    with signed requests and with requests from its extensions, and how the SDK nests a request so
    that it travels along a chain of extensions. */
module WalletRequest {
  import opened Wrappers
  import opened Tokens
  import opened WalletState
  import N = WalletNonces

  datatype WalletOp =
    | SetSignatureMode(enable: bool)
    | AddExtension(accountId: AccountId)
    | RemoveExtension(accountId: AccountId)

  /** A promise's action: a call of `w_execute_extension`, another supported action, or one that
      wallets refuse. */
  datatype Action = ExecuteExtension(request: Request, deposit: nat) | Supported | Unsupported

  datatype Promise = Promise(receiverId: AccountId, actions: seq<Action>)

  datatype Request = Request(ops: seq<WalletOp>, promises: seq<Promise>)

  datatype RequestMessage = RequestMessage(
    payForGas: bool,
    chainId: string,
    signerId: AccountId,
    nonce: nat,
    createdAt: int,
    timeout: nat,
    request: Request)

  datatype Error =
    | SignatureDisabled | PayForGasUnsupported | InvalidChainId | InvalidSignerId | BadNonce(e: N.NonceError)
    | InvalidSignature | InsufficientDeposit | ExtensionEnabled | ExtensionNotEnabled
    | ThisSignatureModeAlreadySet | Lockout | SelfCallsNotAllowed | UnsupportedPromiseAction

  /** `execute_op` */
  function ExecuteOp(a: Access, op: WalletOp): (r: Result<Access, Error>) {
    match op
    case SetSignatureMode(enable) =>
      if a.signatureEnabled == enable then Err(ThisSignatureModeAlreadySet)
      else if !enable && a.extensions == {} then Err(Lockout)
      else Ok(a.(signatureEnabled := enable))
    case AddExtension(id) =>
      if id in a.extensions then Err(ExtensionEnabled) else Ok(a.(extensions := a.extensions + {id}))
    case RemoveExtension(id) =>
      if id !in a.extensions then Err(ExtensionNotEnabled)
      else if !a.signatureEnabled && a.extensions == {id} then Err(Lockout)
      else Ok(a.(extensions := a.extensions - {id}))
  }

  function ExecuteOps(a: Access, ops: seq<WalletOp>): (r: Result<Access, Error>)
    decreases |ops|
  {
    if ops == [] then Ok(a)
    else match ExecuteOp(a, ops[0]) {
      case Err(e) => Err(e)
      case Ok(a') => ExecuteOps(a', ops[1..])
    }
  }

  /** `build_promise`: no calls to itself, and only supported actions. */
  function BuildPromise(me: AccountId, p: Promise): (r: Result<(), Error>) {
    if p.receiverId == me then Err(SelfCallsNotAllowed)
    else if exists i :: 0 <= i < |p.actions| && p.actions[i].Unsupported? then Err(UnsupportedPromiseAction)
    else Ok(())
  }

  function BuildPromises(me: AccountId, ps: seq<Promise>): (r: Result<(), Error>) {
    if ps == [] then Ok(())
    else match BuildPromise(me, ps[0]) {
      case Err(e) => Err(e)
      case Ok(_) => BuildPromises(me, ps[1..])
    }
  }

  /** `execute_request`: the operations in order, then the promises. */
  function ExecuteRequest(a: Access, me: AccountId, r: Request): (out: Result<Access, Error>) {
    match ExecuteOps(a, r.ops)
    case Err(e) => Err(e)
    case Ok(a') =>
      match BuildPromises(me, r.promises)
      case Err(e) => Err(e)
      case Ok(_) => Ok(a')
  }

  /** The checks of `execute_extension` before the request runs. */
  function Admit(a: Access, predecessor: AccountId, deposit: nat): (r: Result<(), Error>) {
    if deposit == 0 then Err(InsufficientDeposit)
    else if predecessor !in a.extensions then Err(ExtensionNotEnabled)
    else Ok(())
  }

  // ---------- what a request does ----------

  /** When an operation succeeds, and what it changes: the signature mode or the one extension it
      names. */
  lemma OpIs(a: Access, op: WalletOp, x: AccountId)
    ensures ExecuteOp(a, op).Ok? <==>
              match op
              case SetSignatureMode(enable) => enable != a.signatureEnabled && (enable || a.extensions != {})
              case AddExtension(id) => id !in a.extensions
              case RemoveExtension(id) =>
                id in a.extensions && (a.signatureEnabled || exists y :: y in a.extensions && y != id)
    ensures ExecuteOp(a, op).Ok? ==>
              var a' := ExecuteOp(a, op).value;
              && (a'.signatureEnabled <==> if op.SetSignatureMode? then op.enable else a.signatureEnabled)
              && (x in a'.extensions <==> (x in a.extensions || op == AddExtension(x)) && op != RemoveExtension(x))
  {
    if op.RemoveExtension? && op.accountId in a.extensions {
      assert a.extensions == {op.accountId} <==> !exists y :: y in a.extensions && y != op.accountId;
    }
  }

  /** The mode after a list of operations: the last one set. */
  function ModeAfter(mode: bool, ops: seq<WalletOp>): bool {
    if ops == [] then mode
    else
      var last := ops[|ops| - 1];
      if last.SetSignatureMode? then last.enable else ModeAfter(mode, ops[..|ops| - 1])
  }

  /** Whether an account is an extension after a list of operations: what the last one about it says. */
  function ExtensionAfter(enabled: bool, ops: seq<WalletOp>, x: AccountId): bool {
    if ops == [] then enabled
    else
      var last := ops[|ops| - 1];
      if last == AddExtension(x) then true
      else if last == RemoveExtension(x) then false
      else ExtensionAfter(enabled, ops[..|ops| - 1], x)
  }

  lemma {:induction false} OpsAppend(a: Access, ops: seq<WalletOp>, op: WalletOp)
    ensures ExecuteOps(a, ops + [op]) == match ExecuteOps(a, ops)
                                         case Ok(a') => ExecuteOp(a', op)
                                         case Err(e) => Err(e)
    decreases |ops|
  {
    if ops == [] {
      assert ([] + [op])[1..] == [];
    } else {
      assert (ops + [op])[1..] == ops[1..] + [op];
      if ExecuteOp(a, ops[0]).Ok? {
        OpsAppend(ExecuteOp(a, ops[0]).value, ops[1..], op);
      }
    }
  }

  /** What a list of operations that succeeds leaves behind. */
  lemma {:induction false} OpsAre(a: Access, ops: seq<WalletOp>, x: AccountId)
    requires ExecuteOps(a, ops).Ok?
    ensures ExecuteOps(a, ops).value.signatureEnabled <==> ModeAfter(a.signatureEnabled, ops)
    ensures x in ExecuteOps(a, ops).value.extensions <==> ExtensionAfter(x in a.extensions, ops, x)
    decreases |ops|
  {
    if ops != [] {
      var init, last := ops[..|ops| - 1], ops[|ops| - 1];
      assert ops == init + [last];
      OpsAppend(a, init, last);
      OpsAre(a, init, x);
      OpIs(ExecuteOps(a, init).value, last, x);
    }
  }

  /** No promise goes to the wallet itself, and every action is supported. */
  predicate Allowed(me: AccountId, ps: seq<Promise>) {
    forall i :: 0 <= i < |ps| ==>
      ps[i].receiverId != me && forall j :: 0 <= j < |ps[i].actions| ==> !ps[i].actions[j].Unsupported?
  }

  lemma {:induction false} PromisesIff(me: AccountId, ps: seq<Promise>)
    ensures BuildPromises(me, ps).Ok? <==> Allowed(me, ps)
    decreases |ps|
  {
    if ps != [] {
      PromisesIff(me, ps[1..]);
      if Allowed(me, ps[1..]) && BuildPromise(me, ps[0]).Ok? {
        forall i | 0 <= i < |ps|
          ensures ps[i].receiverId != me && forall j :: 0 <= j < |ps[i].actions| ==> !ps[i].actions[j].Unsupported? {
          assert i > 0 ==> ps[i] == ps[1..][i - 1];
        }
      }
    }
  }

  // ---------- lock-out ----------

  /** Whatever the wallet was deployed with, it passes the check after any operation that succeeds. */
  lemma OpPassesLockoutCheck(a: Access, op: WalletOp)
    requires ExecuteOp(a, op).Ok?
    ensures ExecuteOp(a, op).value.PassesLockoutCheck()
  {
    if op.AddExtension? {
      assert op.accountId in ExecuteOp(a, op).value.extensions;
    }
    if op.RemoveExtension? && ExecuteOp(a, op).value.extensions == {} {
      assert a.extensions == {op.accountId};
    }
  }

  lemma {:induction false} OpsPassLockoutCheck(a: Access, ops: seq<WalletOp>)
    requires ExecuteOps(a, ops).Ok?
    ensures ExecuteOps(a, ops).value.PassesLockoutCheck() || (ops == [] && ExecuteOps(a, ops).value == a)
    decreases |ops|
  {
    if ops != [] {
      OpPassesLockoutCheck(a, ops[0]);
      OpsPassLockoutCheck(ExecuteOp(a, ops[0]).value, ops[1..]);
    }
  }

  // ---------- the contract over time ----------

  /** A wallet contract with its clock and the signed messages it has executed so far. */
  datatype State = State(access: Access, nonces: N.State, executed: seq<RequestMessage>)

  datatype Env = Env(me: AccountId, chainId: string, verify: (RequestMessage, string) -> bool)

  /** `execute_signed` at the current time; a failure undoes the whole call. */
  function ExecuteSigned(env: Env, s: State, msg: RequestMessage, proof: string): (r: Result<State, Error>)
    requires s.nonces.window.Valid()
    ensures r.Ok? ==> r.value.nonces.window.Valid()
  {
    if !s.access.IsSignatureAllowed() then Err(SignatureDisabled)
    else if msg.payForGas then Err(PayForGasUnsupported)
    else if msg.chainId != env.chainId then Err(InvalidChainId)
    else if msg.signerId != env.me then Err(InvalidSignerId)
    else
      var (w, committed) := N.Commit(s.nonces.window, msg.nonce, msg.createdAt, msg.timeout, s.nonces.clock);
      if committed.Err? then Err(BadNonce(committed.error))
      else if !env.verify(msg, proof) then Err(InvalidSignature)
      else match ExecuteRequest(s.access, env.me, msg.request) {
        case Err(e) => Err(e)
        case Ok(a) =>
          var nonces := N.CommitStep(s.nonces, s.nonces.clock, msg.nonce, msg.createdAt, msg.timeout);
          Ok(State(a, nonces, s.executed + [msg]))
      }
  }

  /** `execute_extension` */
  function ExecuteFromExtension(env: Env, s: State, predecessor: AccountId, deposit: nat, r: Request)
    : (out: Result<State, Error>)
    requires s.nonces.window.Valid()
    ensures out.Ok? ==> out.value.nonces.window.Valid()
  {
    match Admit(s.access, predecessor, deposit)
    case Err(e) => Err(e)
    case Ok(_) =>
      match ExecuteRequest(s.access, env.me, r)
      case Err(e) => Err(e)
      case Ok(a) => Ok(s.(access := a, nonces := N.CleanupStep(s.nonces, s.nonces.clock)))
  }

  /** A signed request that can be executed: signatures are allowed, it is for this wallet and chain, in
      time and not seen before, it verifies, and what it asks for can be done. */
  predicate Signable(env: Env, s: State, msg: RequestMessage, proof: string)
    requires s.nonces.window.Valid()
  {
    && (s.access.signatureEnabled || s.access.extensions == {})
    && !msg.payForGas && msg.chainId == env.chainId && msg.signerId == env.me
    && N.InTime(s.nonces.window, msg.createdAt, msg.timeout, s.nonces.clock)
    && !N.Seen(s.nonces.window, msg.nonce, s.nonces.clock)
    && env.verify(msg, proof)
    && ExecuteOps(s.access, msg.request.ops).Ok? && Allowed(env.me, msg.request.promises)
  }

  /** When a signed request is executed, and what it does. */
  lemma SignedIff(env: Env, s: State, msg: RequestMessage, proof: string)
    requires s.nonces.window.Valid()
    ensures ExecuteSigned(env, s, msg, proof).Ok? <==> Signable(env, s, msg, proof)
    ensures ExecuteSigned(env, s, msg, proof).Ok? ==>
              var s' := ExecuteSigned(env, s, msg, proof).value;
              && s'.access == ExecuteOps(s.access, msg.request.ops).value
              && s'.executed == s.executed + [msg]
              && s'.nonces == N.CommitStep(s.nonces, s.nonces.clock, msg.nonce, msg.createdAt, msg.timeout)
  {
    N.CommitIff(s.nonces.window, msg.nonce, msg.createdAt, msg.timeout, s.nonces.clock);
    PromisesIff(env.me, msg.request.promises);
  }

  /** A request from another account that can be executed: a deposit comes with it, the account is an
      extension, and what it asks for can be done. */
  predicate Extendable(env: Env, s: State, predecessor: AccountId, deposit: nat, r: Request) {
    && deposit > 0 && predecessor in s.access.extensions
    && ExecuteOps(s.access, r.ops).Ok? && Allowed(env.me, r.promises)
  }

  /** When a request from another account is executed, and what it does. */
  lemma ExtensionIff(env: Env, s: State, predecessor: AccountId, deposit: nat, r: Request)
    requires s.nonces.window.Valid()
    ensures ExecuteFromExtension(env, s, predecessor, deposit, r).Ok? <==> Extendable(env, s, predecessor, deposit, r)
    ensures ExecuteFromExtension(env, s, predecessor, deposit, r).Ok? ==>
              var s' := ExecuteFromExtension(env, s, predecessor, deposit, r).value;
              && s'.access == ExecuteOps(s.access, r.ops).value && s'.executed == s.executed
              && s'.nonces == N.CleanupStep(s.nonces, s.nonces.clock)
  {
    PromisesIff(env.me, r.promises);
  }

  datatype Event =
    | Signed(delay: nat, msg: RequestMessage, proof: string)
    | FromExtension(delay: nat, predecessor: AccountId, deposit: nat, request: Request)

  function Step(env: Env, s: State, e: Event): (r: State)
    requires s.nonces.window.Valid()
    ensures r.nonces.window.Valid()
  {
    var s' := s.(nonces := N.Later(s.nonces, e.delay));
    var out := match e
               case Signed(_, msg, proof) => ExecuteSigned(env, s', msg, proof)
               case FromExtension(_, predecessor, deposit, r) => ExecuteFromExtension(env, s', predecessor, deposit, r);
    if out.Ok? then out.value else s'
  }

  /** A call that can be executed at its time is, and any other only passes the time. */
  lemma StepIff(env: Env, s: State, e: Event)
    requires s.nonces.window.Valid()
    ensures var late, s' := s.(nonces := N.Later(s.nonces, e.delay)), Step(env, s, e);
            match e
            case Signed(_, msg, proof) =>
              if Signable(env, late, msg, proof) then
                && s'.access == ExecuteOps(s.access, msg.request.ops).value && s'.executed == s.executed + [msg]
                && s'.nonces == N.CommitStep(late.nonces, late.nonces.clock, msg.nonce, msg.createdAt, msg.timeout)
              else s' == late
            case FromExtension(_, predecessor, deposit, r) =>
              if Extendable(env, late, predecessor, deposit, r) then
                && s'.access == ExecuteOps(s.access, r.ops).value && s'.executed == s.executed
                && s'.nonces == N.CleanupStep(late.nonces, late.nonces.clock)
              else s' == late
  {
    var late := s.(nonces := N.Later(s.nonces, e.delay));
    match e
    case Signed(_, msg, proof) => SignedIff(env, late, msg, proof);
    case FromExtension(_, predecessor, deposit, r) => ExtensionIff(env, late, predecessor, deposit, r);
  }

  function Run(env: Env, s: State, events: seq<Event>): (r: State)
    requires s.nonces.window.Valid()
    ensures r.nonces.window.Valid()
    decreases |events|
  {
    if events == [] then s else Run(env, Step(env, s, events[0]), events[1..])
  }

  /** The nonce store's log is the list of executed messages. */
  ghost predicate Inv(s: State) {
    && N.Inv(s.nonces)
    && |s.executed| == |s.nonces.log|
    && (forall i :: 0 <= i < |s.executed| ==>
          && s.nonces.log[i].nonce == s.executed[i].nonce
          && s.nonces.log[i].createdAt == s.executed[i].createdAt && s.nonces.log[i].timeout == s.executed[i].timeout)
  }

  lemma StepKeepsInv(env: Env, s: State, e: Event)
    requires Inv(s)
    ensures Inv(Step(env, s, e))
  {
    var s' := s.(nonces := N.Later(s.nonces, e.delay));
    N.LaterKeepsInv(s.nonces, e.delay);
    match e
    case Signed(_, msg, proof) =>
      if ExecuteSigned(env, s', msg, proof).Ok? {
        N.CommitStepKeepsInv(s'.nonces, s'.nonces.clock, msg.nonce, msg.createdAt, msg.timeout);
      }
    case FromExtension(_, predecessor, deposit, r) =>
      if ExecuteFromExtension(env, s', predecessor, deposit, r).Ok? {
        N.CleanupKeepsInv(s'.nonces, s'.nonces.clock);
      }
  }

  lemma {:induction false} RunKeepsInv(env: Env, s: State, events: seq<Event>)
    requires Inv(s)
    ensures Inv(Run(env, s, events))
    decreases |events|
  {
    if events != [] {
      StepKeepsInv(env, s, events[0]);
      RunKeepsInv(env, Step(env, s, events[0]), events[1..]);
    }
  }

  lemma StepPassesLockoutCheck(env: Env, s: State, e: Event)
    requires s.nonces.window.Valid()
    ensures Step(env, s, e).access.PassesLockoutCheck() || Step(env, s, e).access == s.access
  {
    var ops := if e.Signed? then e.msg.request.ops else e.request.ops;
    if ExecuteOps(s.access, ops).Ok? {
      OpsPassLockoutCheck(s.access, ops);
    }
  }

  lemma {:induction false} RunPassesLockoutCheck(env: Env, s: State, events: seq<Event>)
    requires s.nonces.window.Valid()
    ensures Run(env, s, events).access.PassesLockoutCheck() || Run(env, s, events).access == s.access
    decreases |events|
  {
    if events != [] {
      StepPassesLockoutCheck(env, s, events[0]);
      RunPassesLockoutCheck(env, Step(env, s, events[0]), events[1..]);
    }
  }

  /** Over every run of a new wallet, however it was deployed, whatever it is sent and whatever
      operations it executes: no signed message is executed twice, and once the wallet passes the
      lock-out check, from deployment or by its first operation, it always does. */
  lemma NoReplayNoLockout(env: Env, access: Access, timeout: nat, clock: nat, events: seq<Event>)
    ensures var s := Run(env, State(access, N.Start(timeout, clock), []), events);
            && (forall i, j :: 0 <= i < j < |s.executed| ==> s.executed[i] != s.executed[j])
            && (access.PassesLockoutCheck() ==> s.access.PassesLockoutCheck())
            && (s.access != access ==> s.access.PassesLockoutCheck())
  {
    var s0 := State(access, N.Start(timeout, clock), []);
    var s := Run(env, s0, events);
    RunKeepsInv(env, s0, events);
    RunPassesLockoutCheck(env, s0, events);
    forall i, j | 0 <= i < j < |s.executed| ensures s.executed[i] != s.executed[j] {
      assert N.Apart(s.nonces.log[i], s.nonces.log[j], s.nonces.window.timeout);
      assert N.Timely(s.nonces.window, s.nonces.log[i]);
    }
  }

  /** Over every run of a new wallet, every signed message is executed within its own timeout and the
      wallet's. */
  lemma ExecutedInTime(env: Env, access: Access, timeout: nat, clock: nat, events: seq<Event>, i: nat)
    requires i < |Run(env, State(access, N.Start(timeout, clock), []), events).executed|
    ensures var s := Run(env, State(access, N.Start(timeout, clock), []), events);
            var msg := s.executed[i];
            i < |s.nonces.log| && msg.createdAt <= s.nonces.log[i].at <= msg.createdAt + msg.timeout
  {
    var s := Run(env, State(access, N.Start(timeout, clock), []), events);
    RunKeepsInv(env, State(access, N.Start(timeout, clock), []), events);
    assert N.Timely(s.nonces.window, s.nonces.log[i]);
  }

  // ---------- who changes a wallet ----------

  /** The caller of an event may act for the wallet: a verified signature on a message for this wallet
      while signatures are allowed, or an account that is an extension. */
  predicate Authorized(env: Env, a: Access, e: Event) {
    match e
    case Signed(_, msg, proof) =>
      && (a.signatureEnabled || a.extensions == {})
      && msg.signerId == env.me && msg.chainId == env.chainId && env.verify(msg, proof)
    case FromExtension(_, predecessor, deposit, _) => predecessor in a.extensions && deposit > 0
  }

  lemma StepNeedsAuthority(env: Env, s: State, e: Event)
    requires s.nonces.window.Valid()
    ensures Step(env, s, e).access != s.access || Step(env, s, e).executed != s.executed
        ==> Authorized(env, s.access, e)
    ensures Step(env, s, e).executed == s.executed || (e.Signed? && Step(env, s, e).executed == s.executed + [e.msg])
  {
    var s' := s.(nonces := N.Later(s.nonces, e.delay));
    match e
    case Signed(_, msg, proof) => SignedIff(env, s', msg, proof);
    case FromExtension(_, predecessor, deposit, r) => ExtensionIff(env, s', predecessor, deposit, r);
  }

  lemma {:induction false} RunSplit(env: Env, s: State, events: seq<Event>, k: nat)
    requires s.nonces.window.Valid() && k < |events|
    ensures Run(env, s, events[..k + 1]) == Step(env, Run(env, s, events[..k]), events[k])
    decreases k
  {
    assert events[..k + 1][1..] == events[1..][..k];
    if k == 0 {
      assert events[..k] == [] && events[..1] == [events[0]] && [events[0]][1..] == [];
    } else {
      assert events[..k][1..] == events[1..][..k - 1];
      RunSplit(env, Step(env, s, events[0]), events[1..], k - 1);
    }
  }

  /** Over every run: whenever the access changes or a message is executed, the call came from someone
      who could act for the wallet just before it. */
  lemma EveryChangeAuthorized(env: Env, s: State, events: seq<Event>, k: nat)
    requires s.nonces.window.Valid() && k < |events|
    ensures var before, after := Run(env, s, events[..k]), Run(env, s, events[..k + 1]);
            (after.access != before.access || after.executed != before.executed) ==>
              Authorized(env, before.access, events[k])
  {
    RunSplit(env, s, events, k);
    StepNeedsAuthority(env, Run(env, s, events[..k]), events[k]);
  }

  /** Over every run every executed message was signed: it came with a proof that verifies, for this
      wallet and chain. */
  lemma {:induction false} ExecutedWasSigned(env: Env, s: State, events: seq<Event>, i: nat)
    requires s.nonces.window.Valid() && |s.executed| <= i < |Run(env, s, events).executed|
    ensures var msg := Run(env, s, events).executed[i];
            && msg.signerId == env.me && msg.chainId == env.chainId
            && exists k :: 0 <= k < |events| && events[k].Signed? && events[k].msg == msg
                           && env.verify(msg, events[k].proof)
    decreases |events|
  {
    var s1 := Step(env, s, events[0]);
    StepNeedsAuthority(env, s, events[0]);
    ExecutedGrows(env, s1, events[1..]);
    if i < |s1.executed| {
      assert Run(env, s, events).executed[i] == s1.executed[i] == events[0].msg;
    } else {
      ExecutedWasSigned(env, s1, events[1..], i);
      var msg := Run(env, s, events).executed[i];
      var k :| 0 <= k < |events[1..]| && events[1..][k].Signed? && events[1..][k].msg == msg
               && env.verify(msg, events[1..][k].proof);
      assert events[k + 1] == events[1..][k];
    }
  }

  lemma {:induction false} ExecutedGrows(env: Env, s: State, events: seq<Event>)
    requires s.nonces.window.Valid()
    ensures s.executed <= Run(env, s, events).executed
    decreases |events|
  {
    if events != [] {
      StepNeedsAuthority(env, s, events[0]);
      ExecutedGrows(env, Step(env, s, events[0]), events[1..]);
    }
  }

  // ---------- the contract as an object ----------

  class WalletContract {
    const env: Env
    var signatureEnabled: bool
    var extensions: set<AccountId>
    var nonces: N.Window

    function Current(): Access
      reads this
    {
      Access(signatureEnabled, extensions)
    }

    constructor (env: Env, access: Access, timeout: nat)
      ensures Current() == access && nonces == N.Fresh(timeout) && this.env == env
    {
      this.env := env;
      signatureEnabled, extensions := access.signatureEnabled, access.extensions;
      nonces := N.Fresh(timeout);
    }

    /** `execute_request` with the op handlers: each mutates the state and then checks for a
        lock-out. */
    method Execute(r: Request) returns (out: Result<(), Error>)
      modifies this`signatureEnabled, this`extensions
      ensures match ExecuteRequest(old(Current()), env.me, r)
              case Ok(a) => out == Ok(()) && Current() == a
              case Err(e) => out == Err(e)
    {
      for i := 0 to |r.ops|
        invariant ExecuteOps(Current(), r.ops[i..]) == ExecuteOps(old(Current()), r.ops)
      {
        ghost var before := Current();
        assert r.ops[i..][1..] == r.ops[i + 1..];
        match r.ops[i] {
          case SetSignatureMode(enable) =>
            if signatureEnabled == enable {
              return Err(ThisSignatureModeAlreadySet);
            }
            signatureEnabled := enable;
            if !signatureEnabled && extensions == {} {
              return Err(Lockout);
            }
          case AddExtension(id) =>
            if id in extensions {
              return Err(ExtensionEnabled);
            }
            extensions := extensions + {id};
          case RemoveExtension(id) =>
            if id !in extensions {
              return Err(ExtensionNotEnabled);
            }
            extensions := extensions - {id};
            assert extensions == {} <==> before.extensions == {id};
            if !signatureEnabled && extensions == {} {
              return Err(Lockout);
            }
        }
        assert ExecuteOp(before, r.ops[i]) == Ok(Current());
      }
      for i := 0 to |r.promises|
        invariant BuildPromises(env.me, r.promises[i..]) == BuildPromises(env.me, r.promises)
      {
        assert r.promises[i..][1..] == r.promises[i + 1..];
        var built := BuildPromise(env.me, r.promises[i]);
        if built.Err? {
          return Err(built.error);
        }
      }
      return Ok(());
    }

    /** `execute_signed`; the host undoes a call that fails. */
    method ExecuteSignedAt(msg: RequestMessage, proof: string, clock: int, ghost s: State)
      returns (out: Result<(), Error>)
      requires nonces.Valid() && s.access == Current() && s.nonces.window == nonces && s.nonces.clock == clock
      modifies this
      ensures match ExecuteSigned(env, s, msg, proof)
              case Ok(s') => out == Ok(()) && Current() == s'.access && nonces == s'.nonces.window
              case Err(e) => out == Err(e) && Current() == old(Current()) && nonces == old(nonces)
    {
      if !Current().IsSignatureAllowed() {
        return Err(SignatureDisabled);
      }
      if msg.payForGas {
        return Err(PayForGasUnsupported);
      }
      if msg.chainId != env.chainId {
        return Err(InvalidChainId);
      }
      if msg.signerId != env.me {
        return Err(InvalidSignerId);
      }
      var access, window := Current(), nonces;
      var (w, committed) := N.Commit(nonces, msg.nonce, msg.createdAt, msg.timeout, clock);
      if committed.Err? {
        return Err(BadNonce(committed.error));
      }
      nonces := w;
      if !env.verify(msg, proof) {
        nonces := window;
        return Err(InvalidSignature);
      }
      out := Execute(msg.request);
      if out.Err? {
        nonces := window;
        signatureEnabled, extensions := access.signatureEnabled, access.extensions;
      }
    }

    /** `execute_extension` */
    method ExecuteExtensionAt(predecessor: AccountId, deposit: nat, r: Request, clock: int, ghost s: State)
      returns (out: Result<(), Error>)
      requires nonces.Valid() && s.access == Current() && s.nonces.window == nonces && s.nonces.clock == clock
      modifies this
      ensures match ExecuteFromExtension(env, s, predecessor, deposit, r)
              case Ok(s') => out == Ok(()) && Current() == s'.access && nonces == s'.nonces.window
              case Err(e) => out == Err(e) && Current() == old(Current()) && nonces == old(nonces)
    {
      if deposit == 0 {
        return Err(InsufficientDeposit);
      }
      if predecessor !in extensions {
        return Err(ExtensionNotEnabled);
      }
      var access, window := Current(), nonces;
      nonces := N.CheckCleanup(nonces, clock);
      out := Execute(r);
      if out.Err? {
        nonces := window;
        signatureEnabled, extensions := access.signatureEnabled, access.extensions;
      }
    }
  }
}
