/** The onion shuffle: layered encryption (pkg/ares/onion/onion.go) and the relay that walks
    a batch through its peelers (examples/voting/cmd/session-service/main.go). Encryption is
    symbolic: an envelope names the key it is sealed to and the randomness that went into
    it, and equal envelopes are equal bytes. */
module Onion {
  import opened Wrappers

  /** Bytes, as far as the shuffle can tell: an envelope, or anything else. */
  datatype Term = Plain(bytes: seq<int>) | Sealed(key: nat, nonce: nat, inner: Term)

  datatype Pub = Pub(key: nat) | BadPub

  datatype Priv = Priv(key: nat) | BadPriv

  datatype Fault =
    | SelfIndexOutOfRange | WrapLayer(layer: nat)
    | PeelItem(item: nat) | NoSelfItem
    | MissingBatch(from: string) | UndecodableBatch(from: string)
    | EmptyBatch(from: string) | BadBase64(from: string)

  datatype Result<+T> = Ok(value: T) | Err(fault: Fault)

  // ---------------------------------------------------------------- ECIES

  function Seal(pub: Pub, nonce: nat, t: Term): Option<Term> {
    if pub.Pub? then Some(Sealed(pub.key, nonce, t)) else None
  }

  function Open(priv: Priv, t: Term): Option<Term> {
    if priv.Priv? && t.Sealed? && t.key == priv.key then Some(t.inner) else None
  }

  // ---------------------------------------------------------------- building

  /** The payload under layers from, from + 1, ... of the peel order, outermost first. */
  function Wrap(payload: Term, pubs: seq<Pub>, nonces: seq<nat>, from: nat): Term
    requires from <= |pubs| <= |nonces|
    decreases |pubs| - from
  {
    if from == |pubs| then payload
    else
      var inner := Wrap(payload, pubs, nonces, from + 1);
      if pubs[from].Pub? then Sealed(pubs[from].key, nonces[from], inner) else inner
  }

  /** nonces[i] is the randomness drawn for layer i. */
  method BuildOnion(payload: Term, pubs: seq<Pub>, selfIndex: int, nonces: seq<nat>)
    returns (r: Result<(Term, Term)>)
    requires |nonces| == |pubs|
    ensures r.Ok? <==> 0 <= selfIndex < |pubs| && forall i :: 0 <= i < |pubs| ==> pubs[i].Pub?
    ensures r.Ok? ==> r.value.0 == Wrap(payload, pubs, nonces, 0)
    ensures r.Ok? ==> r.value.1 == Wrap(payload, pubs, nonces, selfIndex)
    ensures r.Err? && 0 <= selfIndex < |pubs| ==>
              r.fault.WrapLayer? && r.fault.layer < |pubs| && pubs[r.fault.layer].BadPub?
              && forall i :: r.fault.layer < i < |pubs| ==> pubs[i].Pub?
    ensures r.Err? && !(0 <= selfIndex < |pubs|) ==> r.fault == SelfIndexOutOfRange
  {
    if selfIndex < 0 || selfIndex >= |pubs| {
      return Err(SelfIndexOutOfRange);
    }
    var data, selfMemo := payload, payload;
    var i := |pubs|;
    while i > 0
      invariant 0 <= i <= |pubs|
      invariant forall j :: i <= j < |pubs| ==> pubs[j].Pub?
      invariant data == Wrap(payload, pubs, nonces, i)
      invariant i <= selfIndex ==> selfMemo == Wrap(payload, pubs, nonces, selfIndex)
    {
      i := i - 1;
      var enc := Seal(pubs[i], nonces[i], data);
      if enc.None? {
        return Err(WrapLayer(i));
      }
      data := enc.value;
      if i == selfIndex {
        selfMemo := data;
      }
    }
    return Ok((data, selfMemo));
  }

  // ---------------------------------------------------------------- peeling

  predicate Openable(priv: Priv, onions: seq<Term>) {
    forall i :: 0 <= i < |onions| ==> Open(priv, onions[i]).Some?
  }

  /** The last position of t, or -1. */
  function LastIndex(t: Term, onions: seq<Term>): (k: int)
    ensures -1 <= k < |onions|
    ensures k >= 0 ==> onions[k] == t && forall j :: k < j < |onions| ==> onions[j] != t
    ensures k == -1 ==> t !in onions
  {
    if onions == [] then -1
    else if onions[|onions| - 1] == t then |onions| - 1
    else LastIndex(t, onions[..|onions| - 1])
  }

  function Inners(priv: Priv, onions: seq<Term>): seq<Term>
    requires Openable(priv, onions)
  {
    seq(|onions|, i requires 0 <= i < |onions| => Open(priv, onions[i]).value)
  }

  /** One layer off every item, in order, and where the peeler's own item was; None when an
      item does not open or the peeler's own item is not there. */
  function Peeled(priv: Priv, memo: Option<Term>, onions: seq<Term>): Option<(seq<Term>, int)> {
    if !Openable(priv, onions) || (memo.Some? && memo.value !in onions) then None
    else Some((Inners(priv, onions), if memo.Some? then LastIndex(memo.value, onions) else -1))
  }

  method PeelBatch(priv: Priv, memo: Option<Term>, onions: seq<Term>) returns (r: Result<(seq<Term>, int)>)
    ensures Peeled(priv, memo, onions) == if r.Ok? then Some(r.value) else None
    ensures r.Ok? ==> |r.value.0| == |onions| && forall i :: 0 <= i < |onions| ==> Open(priv, onions[i]) == Some(r.value.0[i])
    ensures r.Ok? && memo.None? ==> r.value.1 == -1
    ensures r.Ok? && memo.Some? ==> 0 <= r.value.1 < |onions| && onions[r.value.1] == memo.value
                                    && forall j :: r.value.1 < j < |onions| ==> onions[j] != memo.value
    ensures r.Err? && Openable(priv, onions) ==> r.fault == NoSelfItem
    ensures r.Err? && !Openable(priv, onions) ==>
              r.fault.PeelItem? && r.fault.item < |onions| && Open(priv, onions[r.fault.item]).None?
              && Openable(priv, onions[..r.fault.item])
  {
    var ownIndex := -1;
    var peeled := [];
    for i := 0 to |onions|
      invariant |peeled| == i
      invariant forall j :: 0 <= j < i ==> Open(priv, onions[j]) == Some(peeled[j])
      invariant ownIndex == if memo.Some? then LastIndex(memo.value, onions[..i]) else -1
    {
      assert onions[..i + 1][..i] == onions[..i];
      if memo.Some? && onions[i] == memo.value {
        ownIndex := i;
      }
      var inner := Open(priv, onions[i]);
      if inner.None? {
        return Err(PeelItem(i));
      }
      peeled := peeled + [inner.value];
    }
    assert onions[..|onions|] == onions;
    if memo.Some? && ownIndex < 0 {
      return Err(NoSelfItem);
    }
    assert peeled == Inners(priv, onions);
    return Ok((peeled, ownIndex));
  }

  // ---------------------------------------------------------------- the relay

  /** A string of the wire form: base64 of some bytes, or not base64 at all. */
  datatype Encoded = Base64(term: Term) | NotBase64

  /** A raw onion.batch payload. */
  datatype Batch = Batch(onions: seq<Encoded>) | NotJson

  predicate Usable(bucket: map<string, Batch>, p: string) {
    p in bucket && bucket[p].Batch? && |bucket[p].onions| > 0 && bucket[p].onions[0].Base64?
  }

  predicate AllUsable(participants: seq<string>, bucket: map<string, Batch>) {
    forall i :: 0 <= i < |participants| ==> Usable(bucket, participants[i])
  }

  function FirstOnions(participants: seq<string>, bucket: map<string, Batch>): seq<Encoded>
    requires AllUsable(participants, bucket)
  {
    seq(|participants|, i requires 0 <= i < |participants| => bucket[participants[i]].onions[0])
  }

  function BatchFault(bucket: map<string, Batch>, p: string): (f: Fault)
    ensures f == MissingBatch(p) <==> p !in bucket
    ensures f == UndecodableBatch(p) <==> p in bucket && bucket[p] == NotJson
    ensures f == EmptyBatch(p) <==> p in bucket && bucket[p] == Batch([])
  {
    if p !in bucket then MissingBatch(p)
    else if bucket[p].NotJson? then UndecodableBatch(p)
    else if |bucket[p].onions| == 0 then EmptyBatch(p)
    else BadBase64(p)
  }

  method AssembleBatch(participants: seq<string>, bucket: map<string, Batch>) returns (r: Result<seq<Encoded>>)
    ensures r.Ok? <==> AllUsable(participants, bucket)
    ensures r.Ok? ==> r.value == FirstOnions(participants, bucket)
    ensures r.Err? ==> exists i :: 0 <= i < |participants| && !Usable(bucket, participants[i])
                                   && AllUsable(participants[..i], bucket)
                                   && r.fault == BatchFault(bucket, participants[i])
  {
    var onions := [];
    for i := 0 to |participants|
      invariant |onions| == i && AllUsable(participants[..i], bucket)
      invariant forall j :: 0 <= j < i ==> Usable(bucket, participants[j])
      invariant forall j :: 0 <= j < i ==> onions[j] == bucket[participants[j]].onions[0]
    {
      var p := participants[i];
      if p !in bucket {
        return Err(MissingBatch(p));
      }
      var bp := bucket[p];
      if bp.NotJson? {
        return Err(UndecodableBatch(p));
      }
      if |bp.onions| == 0 {
        return Err(EmptyBatch(p));
      }
      if bp.onions[0].NotBase64? {
        return Err(BadBase64(p));
      }
      onions := onions + [bp.onions[0]];
    }
    return Ok(onions);
  }

  datatype Mail = Mail(to: string, onions: seq<Encoded>)

  /** The first position of `from`, or -1. */
  function PeelerIndex(participants: seq<string>, from: string): (k: int)
    ensures -1 <= k < |participants|
    ensures k >= 0 ==> participants[k] == from && from !in participants[..k]
    ensures k == -1 ==> from !in participants
  {
    if participants == [] then -1
    else if participants[0] == from then 0
    else
      var k := PeelerIndex(participants[1..], from);
      if k == -1 then -1 else
      assert participants[..k + 1] == [participants[0]] + participants[1..][..k];
      k + 1
  }

  datatype Inbound = OnionBatch | PeelForward(payload: seq<Encoded>) | OtherType

  /** What the relay sends after a message of `from` was dispatched. */
  function Relayed(participants: seq<string>, bucket: map<string, Batch>, from: string, msg: Inbound): Option<Mail> {
    if participants == [] then None else
    match msg
    case OtherType => None
    case OnionBatch =>
      if |bucket| >= |participants| && AllUsable(participants, bucket)
      then Some(Mail(participants[0], FirstOnions(participants, bucket))) else None
    case PeelForward(payload) =>
      var k := PeelerIndex(participants, from);
      if 0 <= k < |participants| - 1 then Some(Mail(participants[k + 1], payload)) else None
  }

  method PeelRelayIfNeeded(participants: Option<seq<string>>, bucket: map<string, Batch>, from: string, msg: Inbound)
    returns (sent: Option<Mail>)
    ensures sent == if participants.None? then None else Relayed(participants.value, bucket, from, msg)
  {
    if participants.None? || |participants.value| == 0 {
      return None;
    }
    var ps := participants.value;
    var n := |ps|;
    match msg {
      case OnionBatch =>
        if |bucket| < n {
          return None;
        }
        var assembled := AssembleBatch(ps, bucket);
        if assembled.Err? {
          return None;
        }
        return Some(Mail(ps[0], assembled.value));
      case PeelForward(payload) =>
        var peelerIdx := -1;
        var i := 0;
        while i < n && peelerIdx < 0
          invariant 0 <= i <= n && -1 <= peelerIdx < n
          invariant peelerIdx < 0 ==> from !in ps[..i]
          invariant peelerIdx >= 0 ==> ps[peelerIdx] == from && from !in ps[..peelerIdx]
          decreases n - i, peelerIdx < 0
        {
          if ps[i] == from {
            peelerIdx := i;
          } else {
            assert ps[..i + 1] == ps[..i] + [ps[i]];
            i := i + 1;
          }
        }
        FirstIndexUnique(ps, from, peelerIdx);
        if peelerIdx < 0 || peelerIdx >= n - 1 {
          return None;
        }
        return Some(Mail(ps[peelerIdx + 1], payload));
      case OtherType =>
        return None;
    }
  }

  lemma FirstIndexUnique(ps: seq<string>, from: string, k: int)
    requires -1 <= k < |ps|
    requires k == -1 ==> from !in ps
    requires k >= 0 ==> ps[k] == from && from !in ps[..k]
    ensures PeelerIndex(ps, from) == k
  {
    var q := PeelerIndex(ps, from);
    assert forall j :: 0 <= j < q ==> ps[..q][j] == ps[j];
    assert forall j :: 0 <= j < k ==> ps[..k][j] == ps[j];
  }
}
