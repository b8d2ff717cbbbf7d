/** Offchain authorizations of wallet contracts: how the SDK nests them along a chain of extensions
    and how wallets take them apart. Authorization blobs are JSON; decoding is injective, so a blob is
    the value it encodes, or garbage. */
module WalletAuth {
  import opened Wrappers
  import opened Tokens
  import opened OffchainResolver
  import opened WalletState

  datatype OffchainMessage = OffchainMessage(
    chainId: string,
    signerId: AccountId,
    path: seq<AccountId>,
    timestamp: int,
    payload: string)
  {
    /** `top_level_id`: the far end of the path, or the signer. */
    function TopLevelId(): AccountId {
      if path == [] then signerId else path[|path| - 1]
    }
  }

  datatype Blob = Json(auth: WalletAuthorization) | Garbage(text: string)

  datatype WalletAuthorization =
    | Signature(msg: OffchainMessage, proof: string)
    | Extension(accountId: AccountId, authorization: Blob, payload: string)

  datatype Wallet = Wallet(access: Access, publicKey: string)

  /** The chain at one block. Signature verification is a parameter. */
  datatype Chain = Chain(
    chainId: string,
    now: int,
    wallets: map<AccountId, Wallet>,
    verify: (string, OffchainMessage, string) -> bool)

  datatype Error =
    | NoContract | InvalidJson | SignatureDisabled | InvalidChainId | InvalidSignerId | InvalidPath
    | FromTheFuture | InvalidSignature | ExtensionNotEnabled

  /** `WalletImpl::resolve_auth` */
  function Resolve(c: Chain, account: AccountId, path: seq<AccountId>, blob: Blob)
    : (r: Result<Resolution<Blob>, Error>)
  {
    if account !in c.wallets then Err(NoContract)
    else
      var w := c.wallets[account];
      match blob
      case Garbage(_) => Err(InvalidJson)
      case Json(Signature(msg, proof)) =>
        if !w.access.IsSignatureAllowed() then Err(SignatureDisabled)
        else if msg.chainId != c.chainId then Err(InvalidChainId)
        else if msg.signerId != account then Err(InvalidSignerId)
        else if msg.path != path then Err(InvalidPath)
        else if c.now < msg.timestamp then Err(FromTheFuture)
        else if !c.verify(w.publicKey, msg, proof) then Err(InvalidSignature)
        else Ok(Resolution(msg.payload, []))
      case Json(Extension(ext, authorization, payload)) =>
        if ext !in w.access.extensions then Err(ExtensionNotEnabled)
        else Ok(Resolution(payload, [Pending(ext, authorization, payload)]))
  }

  function WalletView(c: Chain): View<Blob> {
    (account, path, blob) =>
      match Resolve(c, account, path, blob)
      case Ok(res) => Some(res)
      case Err(_) => None
  }

  // ---------- what an authorization claims ----------

  function Payload(auth: WalletAuthorization): string {
    match auth
    case Signature(msg, _) => msg.payload
    case Extension(_, _, payload) => payload
  }

  /** The extensions a blob names, from the outside in, and the signature inside. */
  datatype Claim = Claim(hops: seq<AccountId>, msg: OffchainMessage, proof: string)

  /** Unwrap a blob completely; nothing if it does not end in a signature or if its layers do not all
      carry the payload that was signed. */
  function Unwrap(blob: Blob): (r: Option<Claim>)
    ensures r.Some? ==> blob.Json? && Payload(blob.auth) == r.value.msg.payload
  {
    match blob
    case Garbage(_) => None
    case Json(Signature(msg, proof)) => Some(Claim([], msg, proof))
    case Json(Extension(ext, authorization, payload)) =>
      match Unwrap(authorization)
      case None => None
      case Some(inner) =>
        if inner.msg.payload == payload then Some(Claim([ext] + inner.hops, inner.msg, inner.proof)) else None
  }

  /** Every account of the chain has the next one enabled as an extension. */
  predicate Enabled(c: Chain, account: AccountId, hops: seq<AccountId>)
    decreases |hops|
  {
    hops == [] ||
    (account in c.wallets && hops[0] in c.wallets[account].access.extensions && Enabled(c, hops[0], hops[1..]))
  }

  function Signer(account: AccountId, hops: seq<AccountId>): AccountId {
    if hops == [] then account else hops[|hops| - 1]
  }

  /** The path the signer is resolved with: the accounts passed on the way, latest first, before the
      path the resolution started from. */
  function PathAt(account: AccountId, hops: seq<AccountId>, path: seq<AccountId>): seq<AccountId>
    decreases |hops|
  {
    if hops == [] then path else PathAt(hops[0], hops[1..], [account] + path)
  }

  /** The signature is good at the signer, for exactly this path. */
  predicate SignedAt(c: Chain, signer: AccountId, path: seq<AccountId>, msg: OffchainMessage, proof: string) {
    && signer in c.wallets
    && c.wallets[signer].access.IsSignatureAllowed()
    && msg.chainId == c.chainId && msg.signerId == signer && msg.path == path && msg.timestamp <= c.now
    && c.verify(c.wallets[signer].publicKey, msg, proof)
  }

  /** An authorization is accepted exactly when it unwraps, through a chain of enabled extensions no
      longer than the depth limit, to a good signature over the expected payload whose path is that
      very chain. */
  lemma {:induction false} AcceptedIff(c: Chain, depth: nat, account: AccountId, path: seq<AccountId>, blob: Blob,
                                       expected: Option<string>)
    ensures Accepts(WalletView(c), depth, account, path, blob, expected)
       <==> && Unwrap(blob).Some?
            && var claim := Unwrap(blob).value;
               && (expected.Some? ==> expected.value == claim.msg.payload)
               && |claim.hops| <= depth
               && Enabled(c, account, claim.hops)
               && SignedAt(c, Signer(account, claim.hops), PathAt(account, claim.hops, path), claim.msg, claim.proof)
    decreases depth
  {
    match blob
    case Garbage(_) =>
    case Json(Signature(_, _)) =>
    case Json(Extension(ext, inner, payload)) =>
      if Resolve(c, account, path, blob).Ok? {
        var pending := [Pending(ext, inner, payload)];
        assert WalletView(c)(account, path, blob) == Some(Resolution(payload, pending));
        if depth > 0 {
          AcceptedIff(c, depth - 1, ext, [account] + path, inner, Some(payload));
          assert AllAccept(WalletView(c), depth - 1, [account] + path, pending[1..]);
        }
        if Unwrap(blob).Some? {
          ExtensionStep(account, path, ext, Unwrap(inner).value.hops);
        }
      }
  }

  lemma ExtensionStep(account: AccountId, path: seq<AccountId>, ext: AccountId, inner: seq<AccountId>)
    ensures ([ext] + inner)[1..] == inner
    ensures Signer(account, [ext] + inner) == Signer(ext, inner)
    ensures PathAt(account, [ext] + inner, path) == PathAt(ext, inner, [account] + path)
  {
    assert ([ext] + inner)[1..] == inner;
  }

  /** The path ends where the resolution started, so the message names the top-level account. */
  lemma {:induction false} PathEndsAtTop(account: AccountId, hops: seq<AccountId>, path: seq<AccountId>)
    ensures PathAt(account, hops, path) == Reversed(([account] + hops)[..|hops|]) + path
    decreases |hops|
  {
    if hops == [] {
      assert ([account] + hops)[..0] == [];
      assert Reversed([]) + path == path;
    } else {
      PathEndsAtTop(hops[0], hops[1..], [account] + path);
      var inner := ([hops[0]] + hops[1..])[..|hops| - 1];
      assert ([account] + hops)[..|hops|] == [account] + inner;
      ReversedCons(account, inner);
      assert Reversed(inner) + ([account] + path) == (Reversed(inner) + [account]) + path;
    }
  }

  lemma {:induction false} ReversedCons(a: AccountId, s: seq<AccountId>)
    ensures Reversed([a] + s) == Reversed(s) + [a]
  {
    if s != [] {
      assert ([a] + s)[..|s|] == [a] + s[..|s| - 1];
      ReversedCons(a, s[..|s| - 1]);
    }
  }

  /** Soundness of a top-level resolution at `top`, as a resolver without a limit would see it: there
      is a chain of enabled extensions from `top` to a signer, and the signer's message carries the
      accepted payload, lists that chain backwards, and names `top` as its top-level account. */
  lemma AcceptedMeansSigned(c: Chain, depth: nat, top: AccountId, blob: Blob)
    requires Accepts(WalletView(c), depth, top, [], blob, None)
    ensures Unwrap(blob).Some?
    ensures var claim := Unwrap(blob).value;
            && Resolve(c, top, [], blob).Ok? && Resolve(c, top, [], blob).value.payload == claim.msg.payload
            && Enabled(c, top, claim.hops)
            && claim.msg.path == Reversed(([top] + claim.hops)[..|claim.hops|])
            && SignedAt(c, Signer(top, claim.hops), claim.msg.path, claim.msg, claim.proof)
            && claim.msg.TopLevelId() == top
  {
    AcceptedIff(c, depth, top, [], blob, None);
    var claim := Unwrap(blob).value;
    PathEndsAtTop(top, claim.hops, []);
    assert claim.msg.path == Reversed(([top] + claim.hops)[..|claim.hops|]);
    if claim.hops != [] {
      var inner := claim.hops[..|claim.hops| - 1];
      assert ([top] + claim.hops)[..|claim.hops|] == [top] + inner;
      ReversedCons(top, inner);
    }
  }

  // ---------- the SDK ----------

  /** `WalletAuthorization::as_extension_of` */
  function AsExtensionOf(auth: WalletAuthorization, account: AccountId): WalletAuthorization {
    Extension(account, Json(auth), Payload(auth))
  }

  /** `Wallet::account_id`: the account a wallet with this extension chain acts for. */
  function Effective(realId: AccountId, chain: seq<AccountId>): AccountId {
    if chain == [] then realId else chain[|chain| - 1]
  }

  /** `wrap_offchain_msg`: starting from the signature, one layer for every account of the chain but
      the last, innermost first. */
  function Wrap(realId: AccountId, chain: seq<AccountId>, msg: OffchainMessage, proof: string): (r: WalletAuthorization)
    ensures Payload(r) == msg.payload
  {
    if chain == [] then Signature(msg, proof)
    else
      var shorter := chain[..|chain| - 1];
      AsExtensionOf(Wrap(realId, shorter, msg, proof), Effective(realId, shorter))
  }

  /** The same as the loop it is: a fold over the real account and the chain. */
  method WrapOffchainMsg(realId: AccountId, chain: seq<AccountId>, msg: OffchainMessage, proof: string)
    returns (auth: WalletAuthorization)
    ensures auth == Wrap(realId, chain, msg, proof)
  {
    auth := Signature(msg, proof);
    var accounts := ([realId] + chain)[..|chain|];
    for i := 0 to |accounts|
      invariant auth == Wrap(realId, chain[..i], msg, proof)
    {
      assert chain[..i + 1][..i] == chain[..i];
      assert accounts[i] == Effective(realId, chain[..i]);
      auth := AsExtensionOf(auth, accounts[i]);
    }
    assert chain[..|chain|] == chain;
  }

  /** `sign_offchain_msg`: the message for a chain, to be resolved with `extra` beyond its end. */
  function MessageFor(c: Chain, realId: AccountId, chain: seq<AccountId>, extra: seq<AccountId>, timestamp: int,
                      payload: string): OffchainMessage {
    OffchainMessage(c.chainId, realId, chain + extra, timestamp, payload)
  }

  /** Each account of the chain has the one before it enabled. */
  predicate ChainEnabled(c: Chain, realId: AccountId, chain: seq<AccountId>) {
    forall i :: 0 <= i < |chain| ==>
      chain[i] in c.wallets && Effective(realId, chain[..i]) in c.wallets[chain[i]].access.extensions
  }

  /** Signing through a chain of extensions and resolving at its end: with a good signature the
      authorization is accepted for the signed payload, from any starting path, exactly when the
      extensions are enabled and the chain is within the depth limit. Every hop puts the current
      account in front, so the signer sees the very path that was signed. */
  lemma {:induction false} SignedResolves(c: Chain, depth: nat, realId: AccountId, chain: seq<AccountId>,
                                          extra: seq<AccountId>, msg: OffchainMessage, proof: string)
    requires SignedAt(c, realId, chain + extra, msg, proof)
    ensures Accepts(WalletView(c), depth, Effective(realId, chain), extra,
                    Json(Wrap(realId, chain, msg, proof)), Some(msg.payload))
       <==> ChainEnabled(c, realId, chain) && |chain| <= depth
    decreases |chain|
  {
    if chain == [] {
      assert chain + extra == extra;
      assert WalletView(c)(realId, extra, Json(Wrap(realId, chain, msg, proof))) == Some(Resolution(msg.payload, []));
    } else {
      var shorter, last := chain[..|chain| - 1], chain[|chain| - 1];
      assert chain + extra == shorter + ([last] + extra);
      LastEnabled(c, realId, chain);
      OuterLayer(c, depth, realId, chain, extra, msg, proof);
      if depth > 0 {
        SignedResolves(c, depth - 1, realId, shorter, [last] + extra, msg, proof);
      }
    }
  }

  lemma LastEnabled(c: Chain, realId: AccountId, chain: seq<AccountId>)
    requires chain != []
    ensures var shorter, last := chain[..|chain| - 1], chain[|chain| - 1];
            ChainEnabled(c, realId, chain)
            <==> && last in c.wallets && Effective(realId, shorter) in c.wallets[last].access.extensions
                 && ChainEnabled(c, realId, shorter)
  {
    var n := |chain| - 1;
    var shorter := chain[..n];
    assert forall i :: 0 <= i < n ==> shorter[i] == chain[i] && shorter[..i] == chain[..i];
    if ChainEnabled(c, realId, chain) {
      assert Effective(realId, chain[..n]) in c.wallets[chain[n]].access.extensions;
    }
  }

  /** One hop: the outermost layer is accepted when the account before is enabled and the rest is
      accepted there, with the current account in front of the path. */
  lemma OuterLayer(c: Chain, depth: nat, realId: AccountId, chain: seq<AccountId>, path: seq<AccountId>,
                   msg: OffchainMessage, proof: string)
    requires chain != []
    ensures var shorter, last := chain[..|chain| - 1], chain[|chain| - 1];
            Accepts(WalletView(c), depth, last, path, Json(Wrap(realId, chain, msg, proof)), Some(msg.payload))
            <==> && depth > 0
                 && last in c.wallets && Effective(realId, shorter) in c.wallets[last].access.extensions
                 && Accepts(WalletView(c), depth - 1, Effective(realId, shorter), [last] + path,
                            Json(Wrap(realId, shorter, msg, proof)), Some(msg.payload))
  {
    var view, shorter, last := WalletView(c), chain[..|chain| - 1], chain[|chain| - 1];
    var pending := [Pending(Effective(realId, shorter), Json(Wrap(realId, shorter, msg, proof)), msg.payload)];
    if last in c.wallets && Effective(realId, shorter) in c.wallets[last].access.extensions {
      assert view(last, path, Json(Wrap(realId, chain, msg, proof))) == Some(Resolution(msg.payload, pending));
      if depth > 0 {
        assert AllAccept(view, depth - 1, [last] + path, pending[1..]);
      }
    } else {
      assert view(last, path, Json(Wrap(realId, chain, msg, proof))) == None;
    }
  }

  /** So the message of the SDK, which its signer signs, is accepted for its payload when resolved with
      the extra path, exactly when the wallet may sign, the time has come, the extensions are enabled
      and the chain is within the depth limit. */
  lemma SdkMessageResolves(c: Chain, depth: nat, realId: AccountId, chain: seq<AccountId>, extra: seq<AccountId>,
                           timestamp: int, payload: string, proof: string)
    requires realId in c.wallets
    requires c.verify(c.wallets[realId].publicKey, MessageFor(c, realId, chain, extra, timestamp, payload), proof)
    ensures var msg := MessageFor(c, realId, chain, extra, timestamp, payload);
            Accepts(WalletView(c), depth, Effective(realId, chain), extra, Json(Wrap(realId, chain, msg, proof)),
                    Some(payload))
            <==> && c.wallets[realId].access.IsSignatureAllowed() && timestamp <= c.now
                 && ChainEnabled(c, realId, chain) && |chain| <= depth
  {
    var msg := MessageFor(c, realId, chain, extra, timestamp, payload);
    if c.wallets[realId].access.IsSignatureAllowed() && timestamp <= c.now {
      SignedResolves(c, depth, realId, chain, extra, msg, proof);
    } else {
      UnsignedFails(c, depth, realId, chain, extra, msg, proof);
    }
  }

  /** Without a good signature nothing is accepted, however deep it is wrapped. */
  lemma {:induction false} UnsignedFails(c: Chain, depth: nat, realId: AccountId, chain: seq<AccountId>,
                                         extra: seq<AccountId>, msg: OffchainMessage, proof: string)
    requires !SignedAt(c, realId, chain + extra, msg, proof)
    ensures !Accepts(WalletView(c), depth, Effective(realId, chain), extra, Json(Wrap(realId, chain, msg, proof)),
                     Some(msg.payload))
    decreases |chain|
  {
    if chain == [] {
      assert chain + extra == extra;
    } else {
      var shorter, last := chain[..|chain| - 1], chain[|chain| - 1];
      assert chain + extra == shorter + ([last] + extra);
      OuterLayer(c, depth, realId, chain, extra, msg, proof);
      if depth > 0 {
        UnsignedFails(c, depth - 1, realId, shorter, [last] + extra, msg, proof);
      }
    }
  }

  /** The SDK and the resolver together: a payload signed through any chain of enabled extensions, by
      a wallet that may sign, is what the resolver returns at the end of the chain, given limits that
      admit the chain's length. */
  method SignAndResolve(c: Chain, realId: AccountId, chain: seq<AccountId>, payload: string, timestamp: int,
                        proof: string, maxDepth: nat, maxSubAuths: nat)
    returns (r: Result<string, ResolveError>)
    requires realId in c.wallets && c.wallets[realId].access.IsSignatureAllowed() && timestamp <= c.now
    requires c.verify(c.wallets[realId].publicKey, MessageFor(c, realId, chain, [], timestamp, payload), proof)
    requires ChainEnabled(c, realId, chain) && |chain| <= maxDepth && |chain| <= maxSubAuths
    ensures r == Ok(payload)
  {
    var msg := MessageFor(c, realId, chain, [], timestamp, payload);
    var auth := WrapOffchainMsg(realId, chain, msg, proof);
    SdkMessageResolves(c, maxDepth, realId, chain, [], timestamp, payload, proof);
    ExpectedOrNot(c, maxDepth, Effective(realId, chain), Json(auth), payload);
    WrapCount(c, maxDepth, realId, chain, [], msg, proof);
    r := ResolveAuth(WalletView(c), maxDepth, maxSubAuths, Effective(realId, chain), Json(auth));
  }

  lemma ExpectedOrNot(c: Chain, depth: nat, account: AccountId, blob: Blob, payload: string)
    requires Accepts(WalletView(c), depth, account, [], blob, Some(payload))
    ensures Accepts(WalletView(c), depth, account, [], blob, None)
    ensures WalletView(c)(account, [], blob).Some? && WalletView(c)(account, [], blob).value.payload == payload
  {
  }

  /** A wrapped authorization has at most one sub-authorization for each account of the chain. */
  lemma {:induction false} WrapCount(c: Chain, depth: nat, realId: AccountId, chain: seq<AccountId>,
                                     path: seq<AccountId>, msg: OffchainMessage, proof: string)
    ensures Count(WalletView(c), depth, Effective(realId, chain), path, Json(Wrap(realId, chain, msg, proof)))
         <= |chain|
    decreases |chain|
  {
    var view, account, blob := WalletView(c), Effective(realId, chain), Json(Wrap(realId, chain, msg, proof));
    if chain != [] && depth > 0 && view(account, path, blob).Some? {
      var shorter := chain[..|chain| - 1];
      var pending := view(account, path, blob).value.pending;
      assert pending == [Pending(Effective(realId, shorter), Json(Wrap(realId, shorter, msg, proof)), msg.payload)];
      WrapCount(c, depth - 1, realId, shorter, [account] + path, msg, proof);
      assert CountAll(view, depth - 1, [account] + path, pending[1..]) == 0;
    }
  }
}
