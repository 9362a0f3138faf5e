/**
 The key schedule: one ratchet each way below a shared root, and what a receiver
 may reach. Derivation is symbolic: a ratcheted secret and a key are terms, so
 two are equal only when they were derived alike.
 */
module Keys {
  import opened Prelude

  datatype Direction = ClientToServer | ServerToClient {
    function Opposite(): Direction {
      if ClientToServer? then ServerToClient else ClientToServer
    }
  }

  /** Epochs are one byte on the wire. */
  const LAST_EPOCH: nat := 255

  const MAX_EPOCH_CATCHUP: nat := 4

  /** The epoch after this one, if there is one: epochs never wrap. */
  function NextEpoch(epoch: nat): Option<nat>
    requires epoch <= LAST_EPOCH
  {
    if epoch < LAST_EPOCH then Some(epoch + 1) else None
  }

  datatype Secret = Root(id: nat) | Ratcheted(from: Secret)

  datatype Key = Key(secret: Secret, direction: Direction)

  /** The secret `epoch` ratchet steps below the root. */
  function SecretAt(root: Secret, epoch: nat): Secret {
    if epoch == 0 then root else Ratcheted(SecretAt(root, epoch - 1))
  }

  /** The key an epoch of one direction has, however it is arrived at. */
  function KeyAt(root: Secret, epoch: nat, direction: Direction): Key {
    Key(SecretAt(root, epoch), direction)
  }

  function Depth(secret: Secret): nat {
    match secret
    case Root(_) => 0
    case Ratcheted(from) => 1 + Depth(from)
  }

  lemma {:induction false} SecretDepth(root: Secret, epoch: nat)
    ensures Depth(SecretAt(root, epoch)) == Depth(root) + epoch
  {
    if epoch > 0 {
      SecretDepth(root, epoch - 1);
    }
  }

  /** No two epochs, and no two directions, ever share a key. */
  lemma KeysDistinct(root: Secret, e: nat, f: nat, d: Direction, g: Direction)
    ensures KeyAt(root, e, d) == KeyAt(root, f, g) <==> e == f && d == g
  {
    SecretDepth(root, e);
    SecretDepth(root, f);
  }

  datatype Ratchet = Ratchet(epoch: nat, secret: Secret) {
    ghost predicate Below(root: Secret) {
      epoch <= LAST_EPOCH && secret == SecretAt(root, epoch)
    }
  }

  datatype Reach = Current | Previous | Ahead(steps: nat) | Unreachable

  class KeySchedule {
    ghost const root: Secret
    const sending: Direction
    var send: Ratchet
    var sendKey: Key
    var recv: Ratchet
    var recvKey: Key
    var previous: Option<(nat, Key)>
    const ahead: array<Option<Key>>

    /** Every key held is the one ratcheting the root to its epoch gives. */
    ghost predicate Valid()
      reads this, ahead
    {
      && ahead.Length == MAX_EPOCH_CATCHUP
      && send.Below(root)
      && sendKey == KeyAt(root, send.epoch, sending)
      && recv.Below(root)
      && recvKey == KeyAt(root, recv.epoch, sending.Opposite())
      && (previous.Some? ==>
            && previous.value.0 < recv.epoch
            && previous.value.1 == KeyAt(root, previous.value.0, sending.Opposite()))
      && AheadValid()
    }

    /** A cached look-ahead is for an epoch that exists, and is that epoch's key. */
    ghost predicate AheadValid()
      reads this, ahead
    {
      && ahead.Length == MAX_EPOCH_CATCHUP
      && forall k :: 0 <= k < ahead.Length && ahead[k].Some? ==>
           && recv.epoch + k + 1 <= LAST_EPOCH
           && ahead[k].value == KeyAt(root, recv.epoch + k + 1, sending.Opposite())
    }

    constructor (rootSecret: Secret, sending: Direction)
      ensures Valid() && fresh(ahead)
      ensures root == rootSecret && this.sending == sending
      ensures send.epoch == 0 && recv.epoch == 0 && previous == None
    {
      root := rootSecret;
      this.sending := sending;
      send := Ratchet(0, rootSecret);
      recv := Ratchet(0, rootSecret);
      sendKey := Key(rootSecret, sending);
      recvKey := Key(rootSecret, sending.Opposite());
      previous := None;
      ahead := new Option<Key>[MAX_EPOCH_CATCHUP](i => None);
    }

    /** Moves the sending side one epoch on, and refuses at the last. */
    method Rotate() returns (epoch: Option<nat>)
      requires Valid()
      modifies this`send, this`sendKey
      ensures Valid()
      ensures epoch == NextEpoch(old(send.epoch))
      ensures send.epoch == if epoch.Some? then epoch.value else old(send.epoch)
    {
      epoch := NextEpoch(send.epoch);
      if epoch.Some? {
        send := Ratchet(epoch.value, Ratcheted(send.secret));
        sendKey := Key(send.secret, sending);
      }
    }

    /** Which key, if any, a datagram naming `epoch` is tried under. */
    function Reaches(epoch: nat): (reach: Reach)
      requires epoch <= LAST_EPOCH
      reads this
      ensures reach.Ahead? ==> 0 < reach.steps <= MAX_EPOCH_CATCHUP && recv.epoch + reach.steps == epoch
      ensures reach.Previous? ==> previous.Some? && previous.value.0 == epoch
      ensures reach.Unreachable? <==>
        !(epoch == recv.epoch || (previous.Some? && previous.value.0 == epoch) || (recv.epoch < epoch && epoch - recv.epoch <= 4))
      ensures epoch == recv.epoch <==> reach.Current?
    {
      if epoch == recv.epoch then Current
      else if previous.Some? && previous.value.0 == epoch then Previous
      else if recv.epoch < epoch <= recv.epoch + MAX_EPOCH_CATCHUP then Ahead(epoch - recv.epoch)
      else Unreachable
    }

    function Reading(reach: Reach): Option<Key>
      reads this
    {
      match reach
      case Current => Some(recvKey)
      case Previous => if previous.Some? then Some(previous.value.1) else None
      case Ahead(_) => None
      case Unreachable => None
    }

    /** Derives without committing: no ratchet moves, and the answer is that epoch's key. */
    method PeekAhead(steps: nat) returns (key: Option<Key>)
      requires Valid()
      modifies ahead
      ensures Valid()
      ensures key.Some? <==> 0 < steps <= MAX_EPOCH_CATCHUP && recv.epoch + steps <= LAST_EPOCH
      ensures key.Some? ==> key.value == KeyAt(root, recv.epoch + steps, sending.Opposite())
    {
      if steps == 0 || steps > MAX_EPOCH_CATCHUP {
        return None;
      }
      var slot := steps - 1;
      if ahead[slot].None? {
        DeriveAhead();
      }
      key := ahead[slot];
    }

    /** Fills every slot whose epoch exists. */
    method DeriveAhead()
      requires Valid()
      modifies ahead
      ensures Valid()
      ensures forall k :: 0 <= k < ahead.Length ==> (ahead[k].Some? <==> recv.epoch + k + 1 <= LAST_EPOCH)
    {
      var direction := sending.Opposite();
      var epoch, secret := recv.epoch, recv.secret;
      var slot := 0;
      while slot < ahead.Length
        invariant 0 <= slot <= ahead.Length
        invariant epoch == recv.epoch + slot <= LAST_EPOCH
        invariant secret == SecretAt(root, epoch)
        invariant AheadValid()
        invariant forall k :: 0 <= k < slot ==> ahead[k].Some?
      {
        var next := NextEpoch(epoch);
        if next.None? {
          return;
        }
        epoch := next.value;
        secret := Ratcheted(secret);
        ahead[slot] := Some(Key(secret, direction));
        slot := slot + 1;
      }
    }

    /**
     Adopts the peer's rotation. When the epochs run out part-way the ratchet has
     moved and the key has not, so the schedule is left inconsistent: exactly when
     the steps are in range, an epoch is left to move to, and too few are.
     */
    method Follow(steps: nat) returns (epoch: Option<nat>)
      requires Valid()
      modifies this`recv, this`recvKey, this`previous, ahead
      ensures epoch.Some? <==> 0 < steps <= MAX_EPOCH_CATCHUP && old(recv.epoch) + steps <= LAST_EPOCH
      ensures epoch.Some? ==> recv.epoch == epoch.value == old(recv.epoch) + steps
      ensures epoch.Some? ==> previous == Some((old(recv.epoch), old(recvKey)))
      ensures Valid() <==> !(0 < steps <= MAX_EPOCH_CATCHUP && old(recv.epoch) < LAST_EPOCH < old(recv.epoch) + steps)
      ensures !Valid() ==> recv.epoch == LAST_EPOCH && recvKey == old(recvKey)
      ensures epoch.None? && Valid() ==>
        recv == old(recv) && recvKey == old(recvKey) && previous == old(previous) && ahead[..] == old(ahead[..])
    {
      if steps == 0 || steps > MAX_EPOCH_CATCHUP {
        return None;
      }
      var retired := recv.epoch;
      epoch := None;
      var step := 0;
      while step < steps
        invariant 0 <= step <= steps
        invariant recv.Below(root) && recv.epoch == retired + step
        invariant step == 0 ==> recv == old(recv)
        invariant step > 0 ==> epoch == Some(recv.epoch)
        invariant recvKey == old(recvKey) && previous == old(previous) && ahead[..] == old(ahead[..])
      {
        var next := NextEpoch(recv.epoch);
        if next.None? {
          KeysDistinct(root, retired, recv.epoch, sending.Opposite(), sending.Opposite());
          return None;
        }
        recv := Ratchet(next.value, Ratcheted(recv.secret));
        epoch := next;
        step := step + 1;
      }
      var key := recvKey;
      recvKey := Key(recv.secret, sending.Opposite());
      previous := Some((retired, key));
      Forget();
    }

    /** The ratchet the look-ahead came from has moved, so it is stale. */
    method Forget()
      modifies ahead
      ensures forall k :: 0 <= k < ahead.Length ==> ahead[k] == None
    {
      for k := 0 to ahead.Length
        invariant forall j :: 0 <= j < k ==> ahead[j] == None
      {
        ahead[k] := None;
      }
    }
  }

  /** Two steps from the epoch before the last leave a schedule half-moved, and calls alone reach that epoch. */
  method FollowRunsOut(root: Secret, sending: Direction) returns (keys: KeySchedule)
    ensures fresh(keys) && keys.recv.epoch == LAST_EPOCH && !keys.Valid()
  {
    keys := new KeySchedule(root, sending);
    while keys.recv.epoch < 252
      invariant keys.Valid() && fresh(keys) && fresh(keys.ahead) && keys.recv.epoch <= 252 && keys.recv.epoch % 4 == 0
      decreases 252 - keys.recv.epoch
    {
      var epoch := keys.Follow(4);
    }
    var epoch := keys.Follow(2);
    epoch := keys.Follow(2);
  }
}
