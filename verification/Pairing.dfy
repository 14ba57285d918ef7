/** Short-code pairing over ideal primitives, and the joiner's bounded loops. */
module Pairing {
  import opened Wrappers
  import opened Bytes
  import opened Codec

  // ---------------------------------------------------------------- ideal primitives

  /** SPAKE2, ML-KEM, the key derivation and the seal; every coin a side tosses is an argument. */
  datatype Primitives = Primitives(
    pakeMessage: (Bytes, nat) -> Bytes,
    pakeFinish: (Bytes, nat, Bytes) -> Option<Bytes>,
    kemPublic: nat -> Bytes,
    encapsulate: (Bytes, nat) -> Option<(Bytes, Bytes)>,
    decapsulate: (nat, Bytes) -> Option<Bytes>,
    derive: Bytes -> Bytes,
    seal: (Bytes, Bytes, nat) -> Bytes,
    open_: (Bytes, Bytes) -> Option<Bytes>)

  const KEM_SECRET_LEN: nat := 32

  /** Two sides of one PAKE run agree exactly when their secrets do (section 3 of RFC 9382). */
  ghost predicate IdealPake(c: Primitives) {
    && (forall s, x :: |c.pakeMessage(s, x)| < U32)
    && (forall s, x, t, y :: c.pakeFinish(s, x, c.pakeMessage(t, y)).Some?)
    && (forall s, x, t, y ::
          c.pakeFinish(s, x, c.pakeMessage(t, y)) == c.pakeFinish(t, y, c.pakeMessage(s, x)) <==> s == t)
  }

  /** Decapsulating what was encapsulated to a key gives its secret back (FIPS 203). */
  ghost predicate IdealKem(c: Primitives) {
    && (forall k :: |c.kemPublic(k)| < U32)
    && (forall k, e :: c.encapsulate(c.kemPublic(k), e).Some?)
    && (forall k, e ::
          var enc := c.encapsulate(c.kemPublic(k), e).value;
          c.decapsulate(k, enc.0) == Some(enc.1))
    && (forall p, e :: c.encapsulate(p, e).Some? ==>
          |c.encapsulate(p, e).value.0| < U32 && |c.encapsulate(p, e).value.1| == KEM_SECRET_LEN)
    && (forall k, ct :: c.decapsulate(k, ct).Some? ==> |c.decapsulate(k, ct).value| == KEM_SECRET_LEN)
  }

  /** A seal opens under its own key only and cut short under none, and nothing but a seal opens. */
  ghost predicate IdealSeal(c: Primitives) {
    && (forall a, b :: c.derive(a) == c.derive(b) ==> a == b)
    && (forall k, m, n :: c.open_(k, c.seal(k, m, n)) == Some(m))
    && (forall k, b :: c.open_(k, b).Some? ==> exists n :: c.seal(k, c.open_(k, b).value, n) == b)
    && (forall k, m, n, k', m', n' :: c.seal(k, m, n) == c.seal(k', m', n') ==> k == k')
    && (forall k, m, n, k', j :: 0 <= j < |c.seal(k, m, n)| ==> c.open_(k', c.seal(k, m, n)[..j]).None?)
  }

  ghost predicate Ideal(c: Primitives) {
    IdealPake(c) && IdealKem(c) && IdealSeal(c)
  }

  function HybridSealKey(c: Primitives, pakeKey: Bytes, kemSecret: Bytes): Bytes {
    c.derive(pakeKey + kemSecret)
  }

  /** The hybrid key depends on both its parts. */
  lemma HybridNeedsBoth(c: Primitives, a: Bytes, x: Bytes, b: Bytes, y: Bytes)
    requires IdealSeal(c) && |x| == |y| && HybridSealKey(c, a, x) == HybridSealKey(c, b, y)
    ensures a == b && x == y
  {
    assert a + x == b + y;
    assert a == (a + x)[..|a + x| - |x|] && b == (b + y)[..|b + y| - |y|];
    assert x == (a + x)[|a|..] && y == (b + y)[|b|..];
  }

  function Framed(k: Bytes): Bytes {
    seq(|k|, _ => 1) + [0] + k
  }

  lemma FramedApart(k: Bytes, m: Bytes, k': Bytes, m': Bytes)
    requires Framed(k) + m == Framed(k') + m'
    ensures k == k' && m == m'
  {
    var a, b := Framed(k) + m, Framed(k') + m';
    assert a[|k|] == 0 && b[|k'|] == 0;
    assert forall i :: 0 <= i < |k| ==> a[i] == 1;
    assert forall i :: 0 <= i < |k'| ==> b[i] == 1;
    assert |k| == |k'|;
    assert k == a[|k| + 1..2 * |k| + 1] && k' == b[|k'| + 1..2 * |k'| + 1];
    assert m == a[2 * |k| + 1..] && m' == b[2 * |k'| + 1..];
  }

  lemma FramedWhole(k: Bytes, m: Bytes, k': Bytes, m': Bytes, rest: Bytes)
    requires Framed(k) + Framed(m) == Framed(k') + Framed(m') + rest
    ensures k == k' && m == m' && rest == []
  {
    assert Framed(k') + Framed(m') + rest == Framed(k') + (Framed(m') + rest);
    FramedApart(k, Framed(m), k', Framed(m') + rest);
    assert Framed(m) + [] == Framed(m);
    FramedApart(m, [], m', rest);
  }

  ghost function Unframed(k: Bytes, b: Bytes): Option<Bytes> {
    if m: Bytes :| b == Framed(k) + Framed(m) then Some(m) else None
  }

  lemma UnframedExact(k: Bytes, m: Bytes)
    ensures Unframed(k, Framed(k) + Framed(m)) == Some(m)
  {
    var b := Framed(k) + Framed(m);
    assert Unframed(k, b).Some?;
    assert b + [] == b;
    FramedWhole(k, m, k, Unframed(k, b).value, []);
  }

  lemma CutIsNotFramed(k: Bytes, m: Bytes, k': Bytes, j: nat)
    requires j < |Framed(k) + Framed(m)|
    ensures Unframed(k', (Framed(k) + Framed(m))[..j]).None?
  {
    var b := Framed(k) + Framed(m);
    if m': Bytes :| b[..j] == Framed(k') + Framed(m') {
      assert b == b[..j] + b[j..];
      FramedWhole(k, m, k', m', b[j..]);
    }
  }

  /** The three can be had together: these are demands something meets. */
  lemma IdealIsMet() returns (c: Primitives)
    ensures Ideal(c)
  {
    var zeros: Bytes := seq(KEM_SECRET_LEN, _ => 0);
    c := Primitives(
      (s: Bytes, x: nat) => [],
      (s: Bytes, x: nat, m: Bytes) => Some(s),
      (k: nat) => [],
      (p: Bytes, e: nat) => Some(([], zeros)),
      (k: nat, ct: Bytes) => Some(zeros),
      (a: Bytes) => a,
      (k: Bytes, m: Bytes, n: nat) => Framed(k) + Framed(m),
      (k: Bytes, b: Bytes) => Unframed(k, b));
    SealIsIdeal(c);
  }

  lemma SealIsIdeal(c: Primitives)
    requires forall a :: c.derive(a) == a
    requires forall k, m, n :: c.seal(k, m, n) == Framed(k) + Framed(m)
    requires forall k, b :: c.open_(k, b) == Unframed(k, b)
    ensures IdealSeal(c)
  {
    forall k, m, n ensures c.open_(k, c.seal(k, m, n)) == Some(m) {
      UnframedExact(k, m);
    }
    forall k, b | c.open_(k, b).Some? ensures exists n :: c.seal(k, c.open_(k, b).value, n) == b {
      assert c.seal(k, c.open_(k, b).value, 0) == b;
    }
    forall k, m, n, k', m', n' | c.seal(k, m, n) == c.seal(k', m', n') ensures k == k' {
      FramedApart(k, Framed(m), k', Framed(m'));
    }
    forall k, m, n, k', j | 0 <= j < |c.seal(k, m, n)| ensures c.open_(k', c.seal(k, m, n)[..j]).None? {
      CutIsNotFramed(k, m, k', j);
    }
  }

  // ---------------------------------------------------------------- the blobs

  function Opener(c: Primitives, secret: Bytes, coin: nat, kem: nat): Bytes {
    Put(c.pakeMessage(secret, coin)) + Put(c.kemPublic(kem))
  }

  datatype Coins = Coins(pake: nat, kem: nat, nonce: nat)

  /** The inviter's half: an answer to `opener`, sealing `payload`. */
  function BuildInviteResponse(c: Primitives, secret: Bytes, payload: Bytes, opener: Bytes, coins: Coins)
    : Result<Bytes, ()>
  {
    var fields := TwoFields(opener);
    if fields.None? then Err(())
    else
      var key := c.pakeFinish(secret, coins.pake, fields.value.0);
      if key.None? then Err(())
      else
        var kem := c.encapsulate(fields.value.1, coins.kem);
        if kem.None? then Err(())
        else
          var sealed := c.seal(HybridSealKey(c, key.value, kem.value.1), payload, coins.nonce);
          Ok(Put(c.pakeMessage(secret, coins.pake)) + Put(kem.value.0) + Put(sealed))
  }

  /** What `theirs` seals the payload into, answering an opener made with `mine`. */
  function SealOf(c: Primitives, theirs: Bytes, mine: Bytes, payload: Bytes, coin: nat, kem: nat, coins: Coins): Bytes
    requires c.pakeFinish(theirs, coins.pake, c.pakeMessage(mine, coin)).Some?
    requires c.encapsulate(c.kemPublic(kem), coins.kem).Some?
  {
    var key := c.pakeFinish(theirs, coins.pake, c.pakeMessage(mine, coin)).value;
    var kemSecret := c.encapsulate(c.kemPublic(kem), coins.kem).value.1;
    c.seal(HybridSealKey(c, key, kemSecret), payload, coins.nonce)
  }

  /** No more than a length can say. */
  ghost predicate SealFits(c: Primitives, theirs: Bytes, mine: Bytes, payload: Bytes, coin: nat, kem: nat, coins: Coins)
    requires Ideal(c)
  {
    |SealOf(c, theirs, mine, payload, coin, kem, coins)| < U32
  }

  datatype JoinError = NoRelay | Unreachable | TimedOut | HandshakeFailed | WrongCode | CorruptInvite

  /** The joiner's half, once it has a well-formed answer. */
  function Complete(c: Primitives, secret: Bytes, coin: nat, kem: nat, answer: (Bytes, Bytes, Bytes))
    : Result<Bytes, JoinError>
  {
    var key := c.pakeFinish(secret, coin, answer.0);
    if key.None? then Err(HandshakeFailed)
    else
      var kemSecret := c.decapsulate(kem, answer.1);
      if kemSecret.None? then Err(WrongCode)
      else
        var payload := c.open_(HybridSealKey(c, key.value, kemSecret.value), answer.2);
        if payload.None? then Err(WrongCode)
        else if Utf8(payload.value) then Ok(payload.value) else Err(CorruptInvite)
  }

  /** What is left of bytes written with a length of 32 bits. */
  function Cut(v: Bytes): Bytes {
    v[..|v| % U32]
  }

  /** What an inviter builds for a joiner's own opener is well formed and says what it should, as far as it fits. */
  lemma AnswerParses(c: Primitives, theirs: Bytes, mine: Bytes, payload: Bytes, coin: nat, kem: nat, coins: Coins)
    requires Ideal(c)
    ensures var r := BuildInviteResponse(c, theirs, payload, Opener(c, mine, coin, kem), coins);
      && r.Ok?
      && ThreeFields(r.value) == Some((c.pakeMessage(theirs, coins.pake),
                                       c.encapsulate(c.kemPublic(kem), coins.kem).value.0,
                                       Cut(SealOf(c, theirs, mine, payload, coin, kem, coins))))
  {
    var opener := Opener(c, mine, coin, kem);
    TwoFieldsExact(opener, c.pakeMessage(mine, coin), c.kemPublic(kem));
    var enc := c.encapsulate(c.kemPublic(kem), coins.kem);
    ThreeFieldsCut(c.pakeMessage(theirs, coins.pake), enc.value.0, SealOf(c, theirs, mine, payload, coin, kem, coins));
  }

  /** A seal written and read back opens under its own key if it fits, and under no key if it does not. */
  lemma CutOpens(c: Primitives, k: Bytes, m: Bytes, n: nat, k': Bytes)
    requires IdealSeal(c)
    ensures c.open_(k', Cut(c.seal(k, m, n))) == if k == k' && |c.seal(k, m, n)| < U32 then Some(m) else None
  {
    var sealed := c.seal(k, m, n);
    if |sealed| < U32 {
      assert Cut(sealed) == sealed;
    } else {
      assert |sealed| % U32 < |sealed|;
    }
  }

  /**
   * The joiner gets exactly the inviter's payload when their codes match and its seal fits, and a wrong-code error
   * otherwise.
   */
  lemma PairsIffSameCode(c: Primitives, theirs: Bytes, mine: Bytes, payload: Text, coin: nat, kem: nat, coins: Coins)
    requires Ideal(c)
    ensures var r := BuildInviteResponse(c, theirs, payload, Opener(c, mine, coin, kem), coins);
      && r.Ok? && ThreeFields(r.value).Some?
      && Complete(c, mine, coin, kem, ThreeFields(r.value).value)
         == if theirs == mine && SealFits(c, theirs, mine, payload, coin, kem, coins) then Ok(payload)
            else Err(WrongCode)
  {
    AnswerParses(c, theirs, mine, payload, coin, kem, coins);
    var theirKey := c.pakeFinish(theirs, coins.pake, c.pakeMessage(mine, coin)).value;
    var myKey := c.pakeFinish(mine, coin, c.pakeMessage(theirs, coins.pake)).value;
    var enc := c.encapsulate(c.kemPublic(kem), coins.kem).value;
    var (theirSeal, mySeal) := (HybridSealKey(c, theirKey, enc.1), HybridSealKey(c, myKey, enc.1));
    if theirs != mine && theirSeal == mySeal {
      HybridNeedsBoth(c, theirKey, enc.1, myKey, enc.1);
    }
    CutOpens(c, theirSeal, payload, coins.nonce, mySeal);
  }

  /** Whoever wrote it, an answer yields a payload only if that payload was sealed under this joiner's own key. */
  lemma PayloadWasSealedForUs(c: Primitives, secret: Bytes, coin: nat, kem: nat, answer: (Bytes, Bytes, Bytes))
    requires Ideal(c) && Complete(c, secret, coin, kem, answer).Ok?
    ensures var payload := Complete(c, secret, coin, kem, answer).value;
      && c.pakeFinish(secret, coin, answer.0).Some? && c.decapsulate(kem, answer.1).Some?
      && exists n :: answer.2 == c.seal(HybridSealKey(c, c.pakeFinish(secret, coin, answer.0).value,
                                                         c.decapsulate(kem, answer.1).value), payload, n)
  {
    var k := HybridSealKey(c, c.pakeFinish(secret, coin, answer.0).value, c.decapsulate(kem, answer.1).value);
    var n :| c.seal(k, c.open_(k, answer.2).value, n) == answer.2;
    assert answer.2 == c.seal(k, Complete(c, secret, coin, kem, answer).value, n);
  }

  /** An honest answer with another ciphertext or another PAKE message put in opens nothing. */
  lemma SwappedPartFails(c: Primitives, secret: Bytes, payload: Text, coin: nat, kem: nat, coins: Coins,
                         swapped: (Bytes, Bytes, Bytes))
    requires Ideal(c)
    requires var r := BuildInviteResponse(c, secret, payload, Opener(c, secret, coin, kem), coins);
      r.Ok? && ThreeFields(r.value).Some? &&
      var honest := ThreeFields(r.value).value;
      && swapped.2 == honest.2
      && (c.pakeFinish(secret, coin, swapped.0) != c.pakeFinish(secret, coin, honest.0)
          || c.decapsulate(kem, swapped.1) != c.decapsulate(kem, honest.1))
    ensures Complete(c, secret, coin, kem, swapped).Err?
  {
    AnswerParses(c, secret, secret, payload, coin, kem, coins);
    var key := c.pakeFinish(secret, coins.pake, c.pakeMessage(secret, coin)).value;
    var enc := c.encapsulate(c.kemPublic(kem), coins.kem).value;
    if Complete(c, secret, coin, kem, swapped).Ok? {
      PayloadWasSealedForUs(c, secret, coin, kem, swapped);
      var (myKey, mySecret) := (c.pakeFinish(secret, coin, swapped.0).value, c.decapsulate(kem, swapped.1).value);
      var (a, b) := (HybridSealKey(c, key, enc.1), HybridSealKey(c, myKey, mySecret));
      CutOpens(c, a, payload, coins.nonce, b);
      HybridNeedsBoth(c, key, enc.1, myKey, mySecret);
    }
  }

  // ---------------------------------------------------------------- the rendezvous

  const RDV_JOINER := "j"
  const RDV_INVITER := "i"

  function RendezvousHandle(slot: string, leg: string): string {
    "rdv:" + slot + ":" + leg
  }

  /** The two legs never meet, whatever the slots; either leg's mailbox is its slot's alone. */
  lemma LegsApart(slot: string, other: string)
    ensures RendezvousHandle(slot, RDV_JOINER) != RendezvousHandle(other, RDV_INVITER)
    ensures RendezvousHandle(slot, RDV_JOINER) == RendezvousHandle(other, RDV_JOINER) ==> slot == other
    ensures RendezvousHandle(slot, RDV_INVITER) == RendezvousHandle(other, RDV_INVITER) ==> slot == other
  {
    HandleSays(slot, RDV_JOINER);
    HandleSays(other, RDV_JOINER);
    HandleSays(slot, RDV_INVITER);
    HandleSays(other, RDV_INVITER);
  }

  lemma HandleSays(slot: string, leg: string)
    requires |leg| == 1
    ensures var h := RendezvousHandle(slot, leg);
      |h| >= 6 && h[|h| - 1] == leg[0] && h[4..|h| - 2] == slot
  {
  }

  /** The first well-formed answer among blobs. */
  function FirstAnswer(blobs: seq<Bytes>): Option<(Bytes, Bytes, Bytes)> {
    if blobs == [] then None
    else
      var front := FirstAnswer(blobs[..|blobs| - 1]);
      if front.Some? then front else ThreeFields(blobs[|blobs| - 1])
  }

  /** Malformed blobs are skipped, and what comes after the first well-formed one does not matter. */
  lemma {:induction false} JunkIsSkipped(junk: seq<Bytes>, answer: Bytes, more: seq<Bytes>)
    requires forall b :: b in junk ==> ThreeFields(b).None?
    requires ThreeFields(answer).Some?
    ensures FirstAnswer(junk + [answer] + more) == ThreeFields(answer)
  {
    var all := junk + [answer] + more;
    if more != [] {
      JunkIsSkipped(junk, answer, more[..|more| - 1]);
      assert all[..|all| - 1] == junk + [answer] + more[..|more| - 1];
    } else {
      assert all[..|all| - 1] == junk;
      AllJunk(junk);
    }
  }

  /** What the joiner makes of the blobs it takes. */
  function Joined(c: Primitives, secret: Bytes, coin: nat, kem: nat, seen: seq<Bytes>): Result<Bytes, JoinError>
    requires FirstAnswer(seen).Some?
  {
    Complete(c, secret, coin, kem, FirstAnswer(seen).value)
  }

  /** Junk, then the inviter's answer to the joiner's own opener, then anything: exactly what that answer is worth. */
  lemma JoinsBehindJunk(c: Primitives, theirs: Bytes, mine: Bytes, payload: Text, coin: nat, kem: nat, coins: Coins,
                        junk: seq<Bytes>, more: seq<Bytes>)
    requires Ideal(c) && forall b :: b in junk ==> ThreeFields(b).None?
    ensures var r := BuildInviteResponse(c, theirs, payload, Opener(c, mine, coin, kem), coins);
      && r.Ok? && FirstAnswer(junk + [r.value] + more).Some?
      && Joined(c, mine, coin, kem, junk + [r.value] + more)
         == if theirs == mine && SealFits(c, theirs, mine, payload, coin, kem, coins) then Ok(payload)
            else Err(WrongCode)
  {
    PairsIffSameCode(c, theirs, mine, payload, coin, kem, coins);
    JunkIsSkipped(junk, BuildInviteResponse(c, theirs, payload, Opener(c, mine, coin, kem), coins).value, more);
  }

  lemma {:induction false} AllJunk(junk: seq<Bytes>)
    requires forall b :: b in junk ==> ThreeFields(b).None?
    ensures FirstAnswer(junk).None?
  {
    if junk != [] {
      AllJunk(junk[..|junk| - 1]);
      assert junk[|junk| - 1] in junk;
    }
  }

  // ---------------------------------------------------------------- the joiner's world

  const RENDEZVOUS_TTL_MS: nat := 600_000
  const RENDEZVOUS_POLL_MS: nat := 500
  const POST_ESTABLISH_TIMEOUT_MS: nat := 240_000
  const POST_RETRY_INTERVAL_MS: nat := 2_000
  const RENDEZVOUS_REPOST_MS: nat := 20_000

  datatype PostMade = PostMade(relay: string, handle: string, blob: Bytes, ttl: nat, ok: bool, at: nat)

  datatype TakeMade = TakeMade(relay: string, handle: string, result: Result<seq<Bytes>, ()>)

  /** A wait that ended at `at`, with so many posts and takes made before it. */
  datatype Nap = Nap(at: nat, posts: nat, takes: nat)

  /** The clock and the relays: any call takes any time and has any outcome. The rest is history. */
  class World {
    var now: nat
    ghost var posts: seq<PostMade>
    ghost var takes: seq<TakeMade>
    ghost var naps: seq<Nap>

    constructor (now: nat)
      ensures this.now == now && posts == [] && takes == [] && naps == []
    {
      this.now, posts, takes, naps := now, [], [], [];
    }

    method Elapse(atLeast: nat)
      modifies this`now
      ensures now >= old(now) + atLeast
    {
      var more: nat :| more >= 0;
      now := now + atLeast + more;
    }

    method Sleep(ms: nat)
      modifies this`now, this`naps
      ensures now >= old(now) + ms && naps == old(naps) + [Nap(now, |posts|, |takes|)]
    {
      Elapse(ms);
      naps := naps + [Nap(now, |posts|, |takes|)];
    }

    method Post(relay: string, handle: string, blob: Bytes, ttl: nat) returns (ok: bool)
      modifies this`now, this`posts
      ensures now >= old(now) && posts == old(posts) + [PostMade(relay, handle, blob, ttl, ok, now)]
    {
      ok := *;
      Elapse(0);
      posts := posts + [PostMade(relay, handle, blob, ttl, ok, now)];
    }

    method Take(relay: string, handle: string) returns (r: Result<seq<Bytes>, ()>)
      modifies this`now, this`takes
      ensures now >= old(now) && takes == old(takes) + [TakeMade(relay, handle, r)]
    {
      r := *;
      Elapse(0);
      takes := takes + [TakeMade(relay, handle, r)];
    }
  }

  /** Every post is this opener, to the joiner's leg, for the rendezvous lifetime. */
  ghost predicate OnlyOpener(posts: seq<PostMade>, slot: string, opener: Bytes) {
    forall p :: p in posts ==>
      p.handle == RendezvousHandle(slot, RDV_JOINER) && p.blob == opener && p.ttl == RENDEZVOUS_TTL_MS
  }

  /** Every take is on the inviter's leg. */
  ghost predicate OnlyAnswers(takes: seq<TakeMade>, slot: string) {
    forall t :: t in takes ==> t.handle == RendezvousHandle(slot, RDV_INVITER)
  }

  function PostedTo(posts: seq<PostMade>): seq<string> {
    seq(|posts|, i requires 0 <= i < |posts| => posts[i].relay)
  }

  function TakenFrom(takes: seq<TakeMade>): seq<string> {
    seq(|takes|, i requires 0 <= i < |takes| => takes[i].relay)
  }

  lemma PostedMore(posts: seq<PostMade>, p: PostMade)
    ensures PostedTo(posts + [p]) == PostedTo(posts) + [p.relay]
  {
  }

  lemma TakenMore(takes: seq<TakeMade>, t: TakeMade)
    ensures TakenFrom(takes + [t]) == TakenFrom(takes) + [t.relay]
  {
  }

  lemma NextRelay(made: seq<string>, relays: seq<string>, i: nat)
    requires i < |relays|
    ensures made + relays[..i + 1] == made + relays[..i] + [relays[i]]
  {
  }

  /** All relays, `n` times over. */
  function Rounds(relays: seq<string>, n: nat): seq<string> {
    if n == 0 then [] else Rounds(relays, n - 1) + relays
  }

  lemma {:induction false} RoundsAdd(relays: seq<string>, a: nat, b: nat)
    ensures Rounds(relays, a) + Rounds(relays, b) == Rounds(relays, a + b)
    ensures |Rounds(relays, b)| == b * |relays|
  {
    if b > 0 {
      RoundsAdd(relays, a, b - 1);
      assert Rounds(relays, a) + (Rounds(relays, b - 1) + relays) == Rounds(relays, a) + Rounds(relays, b - 1) + relays;
    }
  }

  lemma RoundsAfter(before: seq<string>, relays: seq<string>, a: nat, b: nat)
    ensures before + Rounds(relays, a) + Rounds(relays, b) == before + Rounds(relays, a + b)
  {
    RoundsAdd(relays, a, b);
    assert before + (Rounds(relays, a) + Rounds(relays, b)) == before + Rounds(relays, a) + Rounds(relays, b);
  }

  /** Everything the relays handed over, in order. */
  function Seen(takes: seq<TakeMade>): seq<Bytes> {
    if takes == [] then []
    else
      var front, last := Seen(takes[..|takes| - 1]), takes[|takes| - 1].result;
      if last.Ok? then front + last.value else front
  }

  /** An answer is found exactly when some relay handed over a well-formed blob. */
  lemma {:induction false} AnswerIsSeen(takes: seq<TakeMade>)
    ensures FirstAnswer(Seen(takes)).Some?
       <==> exists t, b :: t in takes && t.result.Ok? && b in t.result.value && ThreeFields(b).Some?
  {
    if takes != [] {
      var front, last := takes[..|takes| - 1], takes[|takes| - 1];
      AnswerIsSeen(front);
      LastIn(takes);
      if last.result.Ok? {
        AnswerIsIn(Seen(front), last.result.value);
      }
    }
  }

  lemma {:induction false} AnswerIsIn(before: seq<Bytes>, blobs: seq<Bytes>)
    ensures FirstAnswer(before + blobs).Some?
       <==> FirstAnswer(before).Some? || exists b :: b in blobs && ThreeFields(b).Some?
  {
    if blobs == [] {
      assert before + blobs == before;
    } else {
      AnswerIsIn(before, blobs[..|blobs| - 1]);
      LastIn(blobs);
      assert (before + blobs)[..|before + blobs| - 1] == before + blobs[..|blobs| - 1];
    }
  }

  lemma SeenMore(takes: seq<TakeMade>, t: TakeMade)
    ensures Seen(takes + [t]) == Seen(takes) + if t.result.Ok? then t.result.value else []
  {
    assert (takes + [t])[..|takes|] == takes;
  }

  /** Post the opener once to every relay, in order. */
  method Broadcast(w: World, relays: seq<string>, slot: string, opener: Bytes) returns (posted: nat)
    modifies w`now, w`posts
    ensures w.now >= old(w.now) && old(w.posts) <= w.posts
    ensures PostedTo(w.posts) == PostedTo(old(w.posts)) + relays
    ensures OnlyOpener(w.posts[|old(w.posts)|..], slot, opener)
    ensures posted == 0 <==> forall p :: p in w.posts[|old(w.posts)|..] ==> !p.ok
    ensures relays != [] ==> w.posts[|w.posts| - 1].at == w.now
  {
    posted := 0;
    ghost var before := w.posts;
    for i := 0 to |relays|
      invariant w.now >= old(w.now) && before <= w.posts && PostedTo(w.posts) == PostedTo(before) + relays[..i]
      invariant OnlyOpener(w.posts[|before|..], slot, opener)
      invariant posted == 0 <==> forall p :: p in w.posts[|before|..] ==> !p.ok
      invariant i > 0 ==> w.posts != [] && w.posts[|w.posts| - 1].at == w.now
    {
      ghost var made, all := w.posts[|before|..], w.posts;
      NextRelay(PostedTo(before), relays, i);
      var ok := w.Post(relays[i], RendezvousHandle(slot, RDV_JOINER), opener, RENDEZVOUS_TTL_MS);
      PostedMore(all, w.posts[|all|]);
      assert w.posts[|before|..] == made + [w.posts[|all|]];
      if ok {
        posted := posted + 1;
      }
    }
    assert relays[..|relays|] == relays;
  }

  lemma PostsJoin(before: seq<PostMade>, posts: seq<PostMade>, slot: string, opener: Bytes)
    requires before <= posts && OnlyOpener(before, slot, opener) && OnlyOpener(posts[|before|..], slot, opener)
    requires forall p :: p in before ==> !p.ok
    ensures OnlyOpener(posts, slot, opener)
    ensures (exists p :: p in posts && p.ok) <==> exists p :: p in posts[|before|..] && p.ok
  {
    var more := posts[|before|..];
    assert posts == before + more;
    assert forall p :: p in posts <==> p in before || p in more;
  }

  /** Get the opener onto some relay, within the window. */
  method EstablishPost(w: World, relays: seq<string>, slot: string, opener: Bytes)
    returns (posted: nat, ghost attempts: nat)
    requires w.posts == []
    modifies w`now, w`posts, w`naps
    ensures w.now >= old(w.now) && OnlyOpener(w.posts, slot, opener) && PostedTo(w.posts) == Rounds(relays, attempts)
    ensures posted > 0 <==> exists p :: p in w.posts && p.ok
    ensures posted == 0 ==> w.now >= old(w.now) + POST_ESTABLISH_TIMEOUT_MS
    ensures attempts > 0 && attempts * POST_RETRY_INTERVAL_MS <= POST_ESTABLISH_TIMEOUT_MS + POST_RETRY_INTERVAL_MS
    ensures relays != [] ==> w.posts != [] && w.posts[|w.posts| - 1].at == w.now
  {
    var deadline := w.now + POST_ESTABLISH_TIMEOUT_MS;
    ghost var start := w.now;
    posted, attempts := 0, 0;
    while true
      invariant w.now >= start + attempts * POST_RETRY_INTERVAL_MS
      invariant attempts > 0 ==> start + (attempts - 1) * POST_RETRY_INTERVAL_MS < deadline
      invariant OnlyOpener(w.posts, slot, opener) && PostedTo(w.posts) == Rounds(relays, attempts)
      invariant forall p :: p in w.posts ==> !p.ok
      decreases deadline + POST_RETRY_INTERVAL_MS - w.now
    {
      ghost var before := w.posts;
      posted := Broadcast(w, relays, slot, opener);
      PostsJoin(before, w.posts, slot, opener);
      attempts := attempts + 1;
      if posted > 0 || w.now >= deadline {
        return;
      }
      w.Sleep(POST_RETRY_INTERVAL_MS);
    }
  }

  /** One round of takes, stopping at the first relay that hands over a well-formed answer. */
  method Gather(w: World, relays: seq<string>, slot: string) returns (answer: Option<(Bytes, Bytes, Bytes)>)
    requires FirstAnswer(Seen(w.takes)).None? && OnlyAnswers(w.takes, slot)
    modifies w`now, w`takes
    ensures w.now >= old(w.now) && old(w.takes) <= w.takes && OnlyAnswers(w.takes, slot)
    ensures answer == FirstAnswer(Seen(w.takes))
    ensures TakenFrom(w.takes) <= TakenFrom(old(w.takes)) + relays
    ensures answer.None? ==> TakenFrom(w.takes) == TakenFrom(old(w.takes)) + relays
    ensures answer.Some? ==> w.takes != [] && FirstAnswer(Seen(w.takes[..|w.takes| - 1])).None?
  {
    answer := None;
    ghost var before := w.takes;
    for i := 0 to |relays|
      invariant w.now >= old(w.now) && before <= w.takes && OnlyAnswers(w.takes, slot) && answer.None?
      invariant FirstAnswer(Seen(w.takes)).None? && TakenFrom(w.takes) == TakenFrom(before) + relays[..i]
    {
      ghost var made := w.takes;
      NextRelay(TakenFrom(before), relays, i);
      var r := w.Take(relays[i], RendezvousHandle(slot, RDV_INVITER));
      assert w.takes[..|made|] == made;
      TakenMore(made, w.takes[|made|]);
      SeenMore(made, w.takes[|made|]);
      if r.Ok? {
        answer := FindAnswer(r.value, Seen(made));
        if answer.Some? {
          return;
        }
      }
    }
    assert relays[..|relays|] == relays;
  }

  /** The first well-formed answer one relay handed over, behind nothing but malformed blobs. */
  method FindAnswer(blobs: seq<Bytes>, ghost before: seq<Bytes>) returns (answer: Option<(Bytes, Bytes, Bytes)>)
    requires FirstAnswer(before).None?
    ensures answer == FirstAnswer(before + blobs)
  {
    ghost var seen := before;
    for j := 0 to |blobs|
      invariant seen == before + blobs[..j] && FirstAnswer(seen).None?
    {
      answer := ThreeFields(blobs[j]);
      FirstOfMore(seen, blobs[j]);
      seen := seen + [blobs[j]];
      if answer.Some? {
        FirstStays(seen, blobs[j + 1..]);
        assert before + blobs == seen + blobs[j + 1..];
        return;
      }
    }
    assert seen == before + blobs;
    return None;
  }

  lemma FirstOfMore(seen: seq<Bytes>, b: Bytes)
    requires FirstAnswer(seen).None?
    ensures FirstAnswer(seen + [b]) == ThreeFields(b)
  {
    assert (seen + [b])[..|seen|] == seen;
  }

  lemma {:induction false} FirstStays(blobs: seq<Bytes>, more: seq<Bytes>)
    requires FirstAnswer(blobs).Some?
    ensures FirstAnswer(blobs + more) == FirstAnswer(blobs)
  {
    if more == [] {
      assert blobs + more == blobs;
    } else {
      FirstStays(blobs, more[..|more| - 1]);
      assert (blobs + more)[..|blobs + more| - 1] == blobs + more[..|more| - 1];
    }
  }

  /** How many posts were made by the wait after `k`. */
  function PostsBy(naps: seq<Nap>, k: nat, posts: nat): nat
    requires k < |naps|
  {
    if k + 1 < |naps| then naps[k + 1].posts else posts
  }

  /** After wait `k` the opener was posted again, once to each relay, exactly when the last post was long enough ago. */
  predicate RepostsAfter(naps: seq<Nap>, k: nat, posts: seq<PostMade>, relays: nat)
    requires k < |naps|
  {
    var before := naps[k].posts;
    && 0 < before <= |posts|
    && PostsBy(naps, k, |posts|)
       == before + if naps[k].at >= posts[before - 1].at + RENDEZVOUS_REPOST_MS then relays else 0
  }

  ghost predicate RepostsWhenDue(naps: seq<Nap>, from: nat, posts: seq<PostMade>, relays: nat) {
    forall k :: from <= k < |naps| ==> RepostsAfter(naps, k, posts, relays)
  }

  lemma EarlierNap(naps: seq<Nap>, k: nat, posts: seq<PostMade>, more: seq<PostMade>, nap: Nap, relays: nat)
    requires k < |naps| && RepostsAfter(naps, k, posts, relays) && nap.posts == |posts|
    ensures RepostsAfter(naps + [nap], k, posts + more, relays)
  {
    var naps', before := naps + [nap], naps[k].posts;
    assert naps'[k] == naps[k] && (posts + more)[before - 1] == posts[before - 1];
    assert PostsBy(naps', k, |posts + more|) == PostsBy(naps, k, |posts|);
  }

  lemma LastNap(naps: seq<Nap>, posts: seq<PostMade>, more: seq<PostMade>, nap: Nap, relays: nat)
    requires posts != [] && nap.posts == |posts|
    requires |more| == if nap.at >= posts[|posts| - 1].at + RENDEZVOUS_REPOST_MS then relays else 0
    ensures RepostsAfter(naps + [nap], |naps|, posts + more, relays)
  {
    assert (posts + more)[|posts| - 1] == posts[|posts| - 1];
  }

  lemma NapsOn(naps: seq<Nap>, from: nat, posts: seq<PostMade>, more: seq<PostMade>, nap: Nap, relays: nat)
    requires RepostsWhenDue(naps, from, posts, relays) && posts != [] && nap.posts == |posts|
    requires |more| == if nap.at >= posts[|posts| - 1].at + RENDEZVOUS_REPOST_MS then relays else 0
    ensures RepostsWhenDue(naps + [nap], from, posts + more, relays)
  {
    forall k | from <= k < |naps + [nap]| ensures RepostsAfter(naps + [nap], k, posts + more, relays) {
      if k < |naps| {
        EarlierNap(naps, k, posts, more, nap, relays);
      } else {
        LastNap(naps, posts, more, nap, relays);
      }
    }
  }

  /** One wait, and the opener posted again when the last time is long enough ago. */
  method KeepPosted(w: World, relays: seq<string>, slot: string, opener: Bytes, lastPost: nat, ghost from: nat)
    returns (lastPost': nat, ghost reposts: nat)
    requires relays != [] && w.posts != [] && lastPost == w.posts[|w.posts| - 1].at <= w.now
    requires OnlyOpener(w.posts, slot, opener) && RepostsWhenDue(w.naps, from, w.posts, |relays|)
    modifies w`now, w`posts, w`naps
    ensures w.now >= old(w.now) + RENDEZVOUS_POLL_MS && lastPost' <= w.now
    ensures if reposts == 1 then lastPost' >= lastPost + RENDEZVOUS_REPOST_MS else reposts == 0 && lastPost' == lastPost
    ensures OnlyOpener(w.posts, slot, opener) && old(w.posts) <= w.posts
    ensures PostedTo(w.posts) == PostedTo(old(w.posts)) + Rounds(relays, reposts)
    ensures lastPost' == w.posts[|w.posts| - 1].at
    ensures |w.naps| == |old(w.naps)| + 1 && RepostsWhenDue(w.naps, from, w.posts, |relays|)
  {
    ghost var before, naps := w.posts, w.naps;
    lastPost', reposts := lastPost, 0;
    w.Sleep(RENDEZVOUS_POLL_MS);
    ghost var nap := w.naps[|naps|];
    if w.now - lastPost >= RENDEZVOUS_REPOST_MS {
      var _ := Broadcast(w, relays, slot, opener);
      lastPost', reposts := w.now, 1;
      assert Rounds(relays, 1) == Rounds(relays, 0) + relays == relays;
    }
    ghost var more := w.posts[|before|..];
    assert w.posts == before + more;
    assert |PostedTo(w.posts)| == |w.posts| && |PostedTo(before)| == |before|;
    NapsOn(naps, from, before, more, nap, |relays|);
    assert Rounds(relays, 0) == [];
  }

  /** What the wait has done: its takes and posts in whole rounds, nothing but junk seen, each repost when due. */
  ghost predicate Awaits(w: World, relays: seq<string>, slot: string, opener: Bytes, posts: seq<PostMade>, naps: nat,
                         polls: nat, reposts: nat)
    reads w
  {
    && FirstAnswer(Seen(w.takes)).None? && TakenFrom(w.takes) == Rounds(relays, polls)
    && AwaitsOn(w, relays, slot, opener, posts, naps, polls, reposts)
  }

  ghost predicate AwaitsOn(w: World, relays: seq<string>, slot: string, opener: Bytes, posts: seq<PostMade>, naps: nat,
                           polls: nat, reposts: nat)
    reads w
  {
    && OnlyAnswers(w.takes, slot) && OnlyOpener(w.posts, slot, opener)
    && posts <= w.posts && PostedTo(w.posts) == PostedTo(posts) + Rounds(relays, reposts)
    && |w.naps| == naps + polls && RepostsWhenDue(w.naps, naps, w.posts, |relays|)
  }

  /** One round of the wait. */
  method PollOnce(w: World, relays: seq<string>, slot: string, opener: Bytes, lastPost: nat, ghost posts: seq<PostMade>,
                  ghost naps: nat, ghost polls: nat, ghost reposts: nat)
    returns (answer: Option<(Bytes, Bytes, Bytes)>, lastPost': nat, ghost reposts': nat)
    requires relays != [] && w.posts != [] && lastPost == w.posts[|w.posts| - 1].at <= w.now
    requires Awaits(w, relays, slot, opener, posts, naps, polls, reposts)
    modifies w
    ensures w.now >= old(w.now) + RENDEZVOUS_POLL_MS && answer == FirstAnswer(Seen(w.takes))
    ensures AwaitsOn(w, relays, slot, opener, posts, naps, polls + 1, reposts')
    ensures TakenFrom(w.takes) <= Rounds(relays, polls + 1)
    ensures answer.None? ==> Awaits(w, relays, slot, opener, posts, naps, polls + 1, reposts')
    ensures w.posts != [] && lastPost' == w.posts[|w.posts| - 1].at <= w.now
    ensures if reposts' == reposts + 1 then lastPost' >= lastPost + RENDEZVOUS_REPOST_MS
            else reposts' == reposts && lastPost' == lastPost
  {
    ghost var more;
    lastPost', more := KeepPosted(w, relays, slot, opener, lastPost, naps);
    RoundsAfter(PostedTo(posts), relays, reposts, more);
    reposts' := reposts + more;
    assert Rounds(relays, polls + 1) == Rounds(relays, polls) + relays;
    answer := Gather(w, relays, slot);
  }

  /** Poll for an answer until the deadline, keeping an opener available. */
  method AwaitAnswer(w: World, relays: seq<string>, slot: string, opener: Bytes, timeout: nat)
    returns (answer: Option<(Bytes, Bytes, Bytes)>, ghost polls: nat, ghost reposts: nat)
    requires w.takes == [] && OnlyOpener(w.posts, slot, opener)
    requires relays != [] && w.posts != [] && w.posts[|w.posts| - 1].at == w.now
    modifies w
    ensures w.now >= old(w.now) && answer == FirstAnswer(Seen(w.takes))
    ensures AwaitsOn(w, relays, slot, opener, old(w.posts), |old(w.naps)|, polls, reposts)
    ensures TakenFrom(w.takes) <= Rounds(relays, polls)
    ensures answer.None? ==> TakenFrom(w.takes) == Rounds(relays, polls) && w.now >= old(w.now) + timeout
    ensures timeout > 0 ==> polls > 0
    ensures polls * RENDEZVOUS_POLL_MS < timeout + RENDEZVOUS_POLL_MS
    ensures reposts * RENDEZVOUS_REPOST_MS < timeout + RENDEZVOUS_REPOST_MS
  {
    ghost var start, naps, posts := w.now, |w.naps|, w.posts;
    var deadline := w.now + timeout;
    var lastPost := w.now;
    answer, polls, reposts := None, 0, 0;
    while w.now < deadline
      invariant polls == 0 ==> w.now == start
      invariant w.now >= start + polls * RENDEZVOUS_POLL_MS
      invariant polls > 0 ==> start + (polls - 1) * RENDEZVOUS_POLL_MS < deadline
      invariant start + reposts * RENDEZVOUS_REPOST_MS <= lastPost <= w.now
      invariant reposts > 0 ==> start + (reposts - 1) * RENDEZVOUS_REPOST_MS < deadline
      invariant answer.None? && Awaits(w, relays, slot, opener, posts, naps, polls, reposts)
      invariant w.posts != [] && lastPost == w.posts[|w.posts| - 1].at
      decreases deadline - w.now
    {
      answer, lastPost, reposts := PollOnce(w, relays, slot, opener, lastPost, posts, naps, polls, reposts);
      polls := polls + 1;
      if answer.Some? {
        return;
      }
    }
  }

  method RunJoinHandshake(w: World, c: Primitives, relays: seq<string>, slot: string, secret: Bytes, coin: nat,
                          kem: nat, timeout: nat)
    returns (r: Result<Bytes, JoinError>, ghost attempts: nat, ghost polls: nat, ghost reposts: nat)
    requires w.posts == [] && w.takes == []
    modifies w
    ensures OnlyOpener(w.posts, slot, Opener(c, secret, coin, kem)) && OnlyAnswers(w.takes, slot)
    ensures PostedTo(w.posts) == Rounds(relays, attempts + reposts) && TakenFrom(w.takes) <= Rounds(relays, polls)
    ensures relays == [] <==> r == Err(NoRelay)
    ensures r == Err(NoRelay) ==> w.posts == [] && w.takes == []
    ensures FirstAnswer(Seen(w.takes)).Some? ==> r == Joined(c, secret, coin, kem, Seen(w.takes))
    ensures FirstAnswer(Seen(w.takes)).None? ==> r in {Err(NoRelay), Err(Unreachable), Err(TimedOut)}
    ensures r == Err(Unreachable) ==>
              (forall p :: p in w.posts ==> !p.ok) && w.takes == [] && w.now >= old(w.now) + POST_ESTABLISH_TIMEOUT_MS
    ensures r == Err(TimedOut) ==>
              && (exists p :: p in w.posts && p.ok) && w.now >= old(w.now) + timeout
              && TakenFrom(w.takes) == Rounds(relays, polls) && (timeout > 0 ==> polls > 0)
    ensures attempts * POST_RETRY_INTERVAL_MS <= POST_ESTABLISH_TIMEOUT_MS + POST_RETRY_INTERVAL_MS
    ensures polls * RENDEZVOUS_POLL_MS < timeout + RENDEZVOUS_POLL_MS
    ensures reposts * RENDEZVOUS_REPOST_MS < timeout + RENDEZVOUS_REPOST_MS
  {
    attempts, polls, reposts := 0, 0, 0;
    if relays == [] {
      return Err(NoRelay), attempts, polls, reposts;
    }
    var opener := Opener(c, secret, coin, kem);
    var posted;
    posted, attempts := EstablishPost(w, relays, slot, opener);
    if posted == 0 {
      return Err(Unreachable), attempts, polls, reposts;
    }
    var answer;
    answer, polls, reposts := AwaitAnswer(w, relays, slot, opener, timeout);
    RoundsAdd(relays, attempts, reposts);
    if answer.None? {
      return Err(TimedOut), attempts, polls, reposts;
    }
    r := Complete(c, secret, coin, kem, answer.value);
  }
}
