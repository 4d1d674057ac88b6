/** The nonce manager: two concurrent maps and the regions in which its methods
    touch them. Each function below is the effect of one region that holds a map's
    shard lock (or of one map operation); the class performs the regions in place. */
module NonceManager {
  import opened Machine
  import opened Results

  type Address = nat

  datatype NonceKey = NonceKey(address: Address, chainId: u64)

  /** `nonces` holds the next nonce to hand out, `confirmed` the on-chain baseline. */
  datatype Maps = Maps(nonces: map<NonceKey, u64>, confirmed: map<NonceKey, u64>)

  datatype FastResult = Assigned(nonce: u64) | LimitReached(pending: nat) | Untracked

  datatype NonceError = PendingLimit(pending: nat) | FetchFailed | UnexpectedState

  function ConfirmedOrZero(m: Maps, k: NonceKey): u64 {
    if k in m.confirmed then m.confirmed[k] else 0
  }

  function PendingCount(m: Maps, k: NonceKey): nat {
    SatSub(if k in m.nonces then m.nonces[k] else 0, ConfirmedOrZero(m, k))
  }

  /** The fast path: read, check the pending limit and increment under one lock. */
  function FastPath(limit: u64, m: Maps, k: NonceKey): (Maps, FastResult) {
    if k !in m.nonces then (m, Untracked)
    else if PendingCount(m, k) >= limit then (m, LimitReached(PendingCount(m, k)))
    else (m.(nonces := m.nonces[k := Next64(m.nonces[k])]), Assigned(m.nonces[k]))
  }

  /** The slow path's first region: the first task to get here installs its fetched count. */
  function InsertIfAbsent(m: Maps, k: NonceKey, onChain: u64): Maps {
    if k in m.nonces then m else m.(nonces := m.nonces[k := onChain])
  }

  /** The slow path's second region: re-lock, increment, store the confirmed baseline if
      there is none. None is the error the source calls impossible. */
  function AssignNext(m: Maps, k: NonceKey, onChain: u64): (Maps, Option<u64>) {
    if k !in m.nonces then (m, None)
    else
      (Maps(m.nonces[k := Next64(m.nonces[k])],
            if k in m.confirmed then m.confirmed else m.confirmed[k := onChain]),
       Some(m.nonces[k]))
  }

  function SetNonce(m: Maps, k: NonceKey, onChain: u64): Maps {
    m.(nonces := m.nonces[k := onChain])
  }

  function SetConfirmed(m: Maps, k: NonceKey, onChain: u64): Maps {
    m.(confirmed := m.confirmed[k := onChain])
  }

  function Confirm(m: Maps, k: NonceKey, nonce: u64): Maps {
    var next := Next64(nonce);
    if k in m.confirmed && m.confirmed[k] >= next then m
    else m.(confirmed := m.confirmed[k := next])
  }

  function RemoveNonce(m: Maps, k: NonceKey): Maps {
    m.(nonces := m.nonces - {k})
  }

  function RemoveConfirmed(m: Maps, k: NonceKey): Maps {
    m.(confirmed := m.confirmed - {k})
  }

  /** A whole `get_next_nonce` that no other task interrupts. */
  function GetNextNonce(limit: u64, m: Maps, k: NonceKey, fetched: Option<u64>)
    : (Maps, Result<u64, NonceError>)
  {
    var (fast, r) := FastPath(limit, m, k);
    match r
    case Assigned(nonce) => (fast, Ok(nonce))
    case LimitReached(pending) => (fast, Err(PendingLimit(pending)))
    case Untracked =>
      if fetched == None then (fast, Err(FetchFailed))
      else
        var (slow, nonce) := AssignNext(InsertIfAbsent(fast, k, fetched.value), k, fetched.value);
        (slow, if nonce == None then Err(UnexpectedState) else Ok(nonce.value))
  }

  class Manager {
    const maxPendingPerAddress: u64
    var nonces: map<NonceKey, u64>
    var confirmed: map<NonceKey, u64>

    ghost function State(): Maps
      reads this
    {
      Maps(nonces, confirmed)
    }

    constructor (limit: u64)
      ensures maxPendingPerAddress == limit && State() == Maps(map[], map[])
    {
      maxPendingPerAddress := limit;
      nonces, confirmed := map[], map[];
    }

    /** The region guarded by the first `get_mut`. */
    method TryFastPath(key: NonceKey) returns (r: FastResult)
      modifies this`nonces
      ensures (State(), r) == FastPath(maxPendingPerAddress, old(State()), key)
    {
      if key !in nonces {
        return Untracked;
      }
      var nonce := nonces[key];
      var baseline := if key in confirmed then confirmed[key] else 0;
      var pending := SatSub(nonce, baseline);
      if pending >= maxPendingPerAddress {
        return LimitReached(pending);
      }
      nonces := nonces[key := Next64(nonce)];
      return Assigned(nonce);
    }

    method InsertFetched(key: NonceKey, onChain: u64)
      modifies this`nonces
      ensures State() == InsertIfAbsent(old(State()), key, onChain)
    {
      if key !in nonces {
        nonces := nonces[key := onChain];
      }
    }

    /** The region guarded by the second `get_mut`. */
    method AssignAfterInsert(key: NonceKey, onChain: u64) returns (issued: Option<u64>)
      modifies this
      ensures (State(), issued) == AssignNext(old(State()), key, onChain)
    {
      if key !in nonces {
        return None;
      }
      issued := Some(nonces[key]);
      nonces := nonces[key := Next64(nonces[key])];
      if key !in confirmed {
        confirmed := confirmed[key := onChain];
      }
    }

    /** `get_next_nonce` run without interruption; `fetched` is what the provider answers. */
    method GetNext(key: NonceKey, fetched: Option<u64>) returns (r: Result<u64, NonceError>)
      modifies this
      ensures (State(), r) == GetNextNonce(maxPendingPerAddress, old(State()), key, fetched)
    {
      var fast := TryFastPath(key);
      match fast
      case Assigned(nonce) => r := Ok(nonce);
      case LimitReached(pending) => r := Err(PendingLimit(pending));
      case Untracked =>
        if fetched == None {
          return Err(FetchFailed);
        }
        InsertFetched(key, fetched.value);
        var issued := AssignAfterInsert(key, fetched.value);
        r := if issued == None then Err(UnexpectedState) else Ok(issued.value);
    }

    method SyncNonce(key: NonceKey, onChain: u64)
      modifies this
      ensures State() == SetConfirmed(SetNonce(old(State()), key, onChain), key, onChain)
    {
      nonces := nonces[key := onChain];
      confirmed := confirmed[key := onChain];
    }

    method ConfirmNonce(key: NonceKey, nonce: u64)
      modifies this`confirmed
      ensures State() == Confirm(old(State()), key, nonce)
    {
      if key in confirmed {
        if Next64(nonce) > confirmed[key] {
          confirmed := confirmed[key := Next64(nonce)];
        }
      } else {
        confirmed := confirmed[key := Next64(nonce)];
      }
    }

    method Reset(key: NonceKey)
      modifies this
      ensures State() == RemoveConfirmed(RemoveNonce(old(State()), key), key)
    {
      nonces := nonces - {key};
      confirmed := confirmed - {key};
    }

    method CountPending(key: NonceKey) returns (pending: nat)
      ensures pending == PendingCount(State(), key)
    {
      var current := if key in nonces then nonces[key] else 0;
      var baseline := if key in confirmed then confirmed[key] else 0;
      pending := SatSub(current, baseline);
    }
  }
}
