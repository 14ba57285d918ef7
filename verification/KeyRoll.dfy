/** Which signing key to trust: the newest the recovery key has named, whatever order it was heard in. */
module KeyRoll {
  import opened Wrappers
  import opened Decimal
  import opened Bytes
  import opened RelayList

  datatype Purpose = Update | Directory {
    function Label(): string {
      if Update? then "update" else "directory"
    }
  }

  type Key = Bytes

  const ZERO_KEY: Key := [0, 0, 0, 0, 0, 0, 0, 0, 0, 0, 0, 0, 0, 0, 0, 0, 0, 0, 0, 0, 0, 0, 0, 0, 0, 0, 0, 0, 0, 0, 0,
                          0]

  /** Base64 and Ed25519, as the module uses them: `verify` under a key, `verifyStrict` with the stricter rule. */
  datatype Crypto = Crypto(
    decode: string -> Option<Bytes>,
    encode: Bytes -> string,
    validKey: Key -> bool,
    verify: (Key, Bytes, Bytes) -> bool,
    verifyStrict: (Key, string, Bytes) -> bool,
    publicKey: Bytes -> Key,
    sign: (Bytes, string) -> Bytes)

  datatype Roots = Roots(purpose: Purpose, signing: Key, recovery: Key)

  datatype Rotation = Rotation(seq_: nat, key: string, sig: string)

  /** What is remembered between runs: a rotation that was accepted. */
  type Trust = Rotation

  // ---------------------------------------------------------------- the signed message

  const PREFIX := "nightdrop/key-rotation/v1\n"

  function Message(purpose: Purpose, seq_: nat, key: string): string {
    PREFIX + purpose.Label() + "\n" + Show(seq_) + "\n" + key
  }

  /** Where the first line ends. */
  function FirstBreak(s: string): nat {
    if s == "" || s[0] == '\n' then 0 else 1 + FirstBreak(s[1..])
  }

  lemma {:induction false} BreakAfter(a: string, x: string)
    requires '\n' !in a
    ensures FirstBreak(a + "\n" + x) == |a|
  {
    if a != "" {
      BreakAfter(a[1..], x);
      assert (a + "\n" + x)[1..] == a[1..] + "\n" + x;
    }
  }

  /** Equal texts with clean first lines have equal parts. */
  lemma FirstLine(a: string, b: string, x: string, y: string)
    requires '\n' !in a && '\n' !in b && a + "\n" + x == b + "\n" + y
    ensures a == b && x == y
  {
    var s, t := a + "\n" + x, b + "\n" + y;
    BreakAfter(a, x);
    BreakAfter(b, y);
    assert a == s[..|a|] && b == t[..|b|];
    assert x == s[|a| + 1..] && y == t[|b| + 1..];
  }

  lemma NoBreaks(purpose: Purpose, seq_: nat)
    ensures '\n' !in purpose.Label() && '\n' !in Show(seq_)
  {
    ShowExact(seq_);
  }

  /** The message says its purpose, sequence and key, and nothing else says the same. */
  lemma MessageInjective(p: Purpose, n: nat, k: string, p': Purpose, n': nat, k': string)
    requires Message(p, n, k) == Message(p', n', k')
    ensures p == p' && n == n' && k == k'
  {
    NoBreaks(p, n);
    NoBreaks(p', n');
    var x, y := Show(n) + "\n" + k, Show(n') + "\n" + k';
    Tail(p, n, k);
    Tail(p', n', k');
    FirstLine(p.Label(), p'.Label(), x, y);
    FirstLine(Show(n), Show(n'), k, k');
    ShowExact(n);
    ShowExact(n');
    assert p.Label()[0] == p'.Label()[0];
  }

  lemma Tail(p: Purpose, n: nat, k: string)
    ensures Message(p, n, k)[|PREFIX|..] == p.Label() + "\n" + (Show(n) + "\n" + k)
  {
    assert Message(p, n, k) == PREFIX + (p.Label() + "\n" + (Show(n) + "\n" + k));
  }

  // ---------------------------------------------------------------- checking a rotation

  function DecodeKey(c: Crypto, b64: string): Option<Key> {
    var b := c.decode(Trim(b64));
    if b.Some? && |b.value| == 32 then b else None
  }

  predicate VerifyRotation(c: Crypto, roots: Roots, r: Rotation) {
    var sig := c.decode(Trim(r.sig));
    && c.validKey(roots.recovery)
    && sig.Some? && |sig.value| == 64
    && c.verifyStrict(roots.recovery, Message(roots.purpose, r.seq_, Trim(r.key)), sig.value)
  }

  /** Recovery-signed for this purpose, and naming a key that can be read. */
  predicate Names(c: Crypto, roots: Roots, r: Rotation) {
    VerifyRotation(c, roots, r) && DecodeKey(c, r.key).Some?
  }

  /** The sequence and key a remembered value stands for; the baked key, at 0, for anything not signed. */
  function Standing(c: Crypto, roots: Roots, learned: Option<Trust>): (nat, Key) {
    if learned.Some? && VerifyRotation(c, roots, learned.value) then
      var k := DecodeKey(c, learned.value.key);
      if k.Some? && learned.value.seq_ > 0 then (learned.value.seq_, k.value) else (0, roots.signing)
    else (0, roots.signing)
  }

  function CurrentKey(c: Crypto, roots: Roots, learned: Option<Trust>, rotation: Option<Rotation>): (Key, Option<Trust>)
  {
    var (n, key) := Standing(c, roots, learned);
    if rotation.Some? && rotation.value.seq_ > n && VerifyRotation(c, roots, rotation.value) then
      var k := DecodeKey(c, rotation.value.key);
      if k.None? then (key, None)
      else (k.value, Some(Rotation(rotation.value.seq_, Trim(rotation.value.key), Trim(rotation.value.sig))))
    else (key, None)
  }

  /** What is remembered next. */
  function Remembered(c: Crypto, roots: Roots, learned: Option<Trust>, rotation: Option<Rotation>): Option<Trust> {
    var moved := CurrentKey(c, roots, learned, rotation).1;
    if moved.Some? then moved else learned
  }

  lemma TrimTwice(s: string)
    ensures Trim(Trim(s)) == Trim(s)
  {
    TrimIsTrimmed(s);
    TrimOfTrimmed(Trim(s));
  }

  /** A rotation kept for next time says then what it said when it was accepted. */
  lemma KeptMeansTheSame(c: Crypto, roots: Roots, r: Rotation)
    ensures var t := Rotation(r.seq_, Trim(r.key), Trim(r.sig));
      VerifyRotation(c, roots, t) == VerifyRotation(c, roots, r) && DecodeKey(c, t.key) == DecodeKey(c, r.key)
  {
    TrimTwice(r.key);
    TrimTwice(r.sig);
  }

  /** One step: what stands after is the rotation if it is newer and names a key, else what stood before. */
  lemma StandingAfter(c: Crypto, roots: Roots, learned: Option<Trust>, rotation: Option<Rotation>)
    ensures var before := Standing(c, roots, learned);
      var after := Standing(c, roots, Remembered(c, roots, learned, rotation));
      && CurrentKey(c, roots, learned, rotation).0 == after.1
      && (if rotation.Some? && rotation.value.seq_ > before.0 && Names(c, roots, rotation.value)
          then after == (rotation.value.seq_, DecodeKey(c, rotation.value.key).value)
          else after == before)
  {
    if rotation.Some? {
      KeptMeansTheSame(c, roots, rotation.value);
    }
  }

  // ---------------------------------------------------------------- any sequence of rotations

  /** What is remembered after `heard`, fed back one at a time. */
  function After(c: Crypto, roots: Roots, learned: Option<Trust>, heard: seq<Option<Rotation>>): Option<Trust> {
    if heard == [] then learned
    else Remembered(c, roots, After(c, roots, learned, heard[..|heard| - 1]), heard[|heard| - 1])
  }

  predicate NamesIn(c: Crypto, roots: Roots, heard: seq<Option<Rotation>>, i: int) {
    0 <= i < |heard| && heard[i].Some? && Names(c, roots, heard[i].value)
  }

  /** The highest sequence among what stood at the start and every rotation that names a key. */
  function Highest(c: Crypto, roots: Roots, start: nat, heard: seq<Option<Rotation>>): nat {
    if heard == [] then start
    else
      var front, n := Highest(c, roots, start, heard[..|heard| - 1]), |heard| - 1;
      if NamesIn(c, roots, heard, n) && heard[n].value.seq_ > front then heard[n].value.seq_ else front
  }

  lemma {:induction false} HighestExact(c: Crypto, roots: Roots, start: nat, heard: seq<Option<Rotation>>)
    ensures Highest(c, roots, start, heard) >= start
    ensures forall i :: NamesIn(c, roots, heard, i) ==> heard[i].value.seq_ <= Highest(c, roots, start, heard)
    ensures Highest(c, roots, start, heard) == start
         || exists i :: NamesIn(c, roots, heard, i) && heard[i].value.seq_ == Highest(c, roots, start, heard)
  {
    if heard != [] {
      var n := |heard| - 1;
      var front := heard[..n];
      HighestExact(c, roots, start, front);
      assert forall i :: 0 <= i < n ==> NamesIn(c, roots, front, i) == NamesIn(c, roots, heard, i);
      if Highest(c, roots, start, heard) == Highest(c, roots, start, front) != start {
        var i :| NamesIn(c, roots, front, i) && front[i].value.seq_ == Highest(c, roots, start, front);
        assert NamesIn(c, roots, heard, i);
      }
    }
  }

  /** Whatever was heard, in whatever order and with whatever junk between, the trusted sequence is the highest. */
  lemma {:induction false} TrustIsHighest(c: Crypto, roots: Roots, learned: Option<Trust>, heard: seq<Option<Rotation>>)
    ensures Standing(c, roots, After(c, roots, learned, heard)).0
         == Highest(c, roots, Standing(c, roots, learned).0, heard)
  {
    if heard != [] {
      var n := |heard| - 1;
      TrustIsHighest(c, roots, learned, heard[..n]);
      StandingAfter(c, roots, After(c, roots, learned, heard[..n]), heard[n]);
    }
  }

  /** And the trusted key is one that was named at that sequence: the first one heard. */
  lemma {:induction false} TrustedKeyWasNamed(c: Crypto, roots: Roots, learned: Option<Trust>,
                                              heard: seq<Option<Rotation>>)
    ensures var (n, key) := Standing(c, roots, After(c, roots, learned, heard));
      (n, key) == Standing(c, roots, learned)
      || exists i :: && NamesIn(c, roots, heard, i) && heard[i].value.seq_ == n
                     && DecodeKey(c, heard[i].value.key) == Some(key)
                     && forall j :: NamesIn(c, roots, heard, j) && j < i ==> heard[j].value.seq_ < n
  {
    if heard != [] {
      var n := |heard| - 1;
      var front := heard[..n];
      var learned' := After(c, roots, learned, front);
      TrustedKeyWasNamed(c, roots, learned, front);
      TrustIsHighest(c, roots, learned, front);
      HighestExact(c, roots, Standing(c, roots, learned).0, front);
      StandingAfter(c, roots, learned', heard[n]);
      var (now, key) := Standing(c, roots, After(c, roots, learned, heard));
      assert forall i :: 0 <= i < n ==> NamesIn(c, roots, front, i) == NamesIn(c, roots, heard, i);
      if (now, key) != Standing(c, roots, learned') {
        assert NamesIn(c, roots, heard, n);
      } else if (now, key) != Standing(c, roots, learned) {
        var i :| && NamesIn(c, roots, front, i) && front[i].value.seq_ == now
                 && DecodeKey(c, front[i].value.key) == Some(key)
                 && forall j :: NamesIn(c, roots, front, j) && j < i ==> front[j].value.seq_ < now;
        assert NamesIn(c, roots, heard, i);
      }
    }
  }

  /** The recovery key named at most one key for each sequence. */
  ghost predicate OneKeyEach(c: Crypto, roots: Roots) {
    forall r, s :: Names(c, roots, r) && Names(c, roots, s) && r.seq_ == s.seq_ ==>
      DecodeKey(c, r.key) == DecodeKey(c, s.key)
  }

  predicate HearsAll(heard: seq<Option<Rotation>>, other: seq<Option<Rotation>>) {
    forall r :: r in heard ==> r in other
  }

  /** Two installs that heard the same rotations trust the same key, in whatever order they heard them. */
  lemma OrderDoesNotMatter(c: Crypto, roots: Roots, heard: seq<Option<Rotation>>, other: seq<Option<Rotation>>)
    requires OneKeyEach(c, roots) && HearsAll(heard, other) && HearsAll(other, heard)
    ensures Standing(c, roots, After(c, roots, None, heard)) == Standing(c, roots, After(c, roots, None, other))
  {
    HighestOfMore(c, roots, heard, other);
    HighestOfMore(c, roots, other, heard);
    TrustIsHighest(c, roots, None, heard);
    TrustIsHighest(c, roots, None, other);
    TrustedKeyWasNamed(c, roots, None, heard);
    TrustedKeyWasNamed(c, roots, None, other);
    KeyAtZero(c, roots, heard);
    KeyAtZero(c, roots, other);
  }

  lemma HighestOfMore(c: Crypto, roots: Roots, heard: seq<Option<Rotation>>, other: seq<Option<Rotation>>)
    requires HearsAll(heard, other)
    ensures Highest(c, roots, 0, heard) <= Highest(c, roots, 0, other)
  {
    HighestExact(c, roots, 0, heard);
    HighestExact(c, roots, 0, other);
    if Highest(c, roots, 0, heard) != 0 {
      var i :| NamesIn(c, roots, heard, i) && heard[i].value.seq_ == Highest(c, roots, 0, heard);
      assert heard[i] in other;
      var j :| 0 <= j < |other| && other[j] == heard[i];
      assert NamesIn(c, roots, other, j);
    }
  }

  lemma KeyAtZero(c: Crypto, roots: Roots, heard: seq<Option<Rotation>>)
    ensures var (n, key) := Standing(c, roots, After(c, roots, None, heard));
      n == 0 ==> key == roots.signing
  {
  }

  /** Once sequence `n` stands, nothing heard later brings back an older key. */
  lemma {:induction false} NeverRollsBack(c: Crypto, roots: Roots, learned: Option<Trust>, heard: seq<Option<Rotation>>)
    ensures var before, after := Standing(c, roots, learned), Standing(c, roots, After(c, roots, learned, heard));
      before.0 <= after.0 && (before.0 == after.0 ==> before == after)
  {
    if heard != [] {
      var n := |heard| - 1;
      NeverRollsBack(c, roots, learned, heard[..n]);
      StandingAfter(c, roots, After(c, roots, learned, heard[..n]), heard[n]);
    }
  }

  /** A remembered value that is not signed is as good as none. */
  lemma UnsignedIsForgotten(c: Crypto, roots: Roots, junk: Trust, rotation: Option<Rotation>)
    requires !VerifyRotation(c, roots, junk)
    ensures CurrentKey(c, roots, Some(junk), rotation) == CurrentKey(c, roots, None, rotation)
  {
  }

  // ---------------------------------------------------------------- who signed what

  /** The recovery key verifies only messages it signed. */
  ghost predicate SignedOnly(c: Crypto, key: Key, messages: set<string>) {
    forall m, sig :: c.verifyStrict(key, m, sig) ==> m in messages
  }

  /** A recovery key that only ever signed for another purpose moves nothing here. */
  lemma OtherPurposeMovesNothing(c: Crypto, roots: Roots, messages: set<string>, rotation: Rotation)
    requires SignedOnly(c, roots.recovery, messages)
    requires forall m :: m in messages ==> exists p, n, k :: p != roots.purpose && m == Message(p, n, k)
    ensures !VerifyRotation(c, roots, rotation)
  {
    if VerifyRotation(c, roots, rotation) {
      var m := Message(roots.purpose, rotation.seq_, Trim(rotation.key));
      assert m in messages;
      var p, n, k :| p != roots.purpose && m == Message(p, n, k);
      MessageInjective(p, n, k, roots.purpose, rotation.seq_, Trim(rotation.key));
    }
  }

  /** A rotation accepted is one the recovery key signed, with this sequence and this key. */
  lemma AcceptedWasSigned(c: Crypto, roots: Roots, messages: set<string>, learned: Option<Trust>,
                          rotation: Option<Rotation>)
    requires SignedOnly(c, roots.recovery, messages) && CurrentKey(c, roots, learned, rotation).1.Some?
    ensures var t := CurrentKey(c, roots, learned, rotation).1.value;
      Message(roots.purpose, t.seq_, t.key) in messages
  {
    TrimTwice(rotation.value.key);
  }

  /** So over any run, from nothing remembered: what is remembered is a key the recovery key signed. */
  lemma {:induction false} TrustWasSigned(c: Crypto, roots: Roots, messages: set<string>, heard: seq<Option<Rotation>>)
    requires SignedOnly(c, roots.recovery, messages)
    ensures var trust := After(c, roots, None, heard);
      trust.Some? ==> Message(roots.purpose, trust.value.seq_, trust.value.key) in messages
  {
    if heard != [] {
      var n := |heard| - 1;
      var before := After(c, roots, None, heard[..n]);
      TrustWasSigned(c, roots, messages, heard[..n]);
      if CurrentKey(c, roots, before, heard[n]).1.Some? {
        AcceptedWasSigned(c, roots, messages, before, heard[n]);
      }
    }
  }

  /** Signing, as ideal Ed25519 and base64 do it. */
  ghost predicate Ideal(c: Crypto) {
    && (forall b :: c.decode(c.encode(b)) == Some(b) && Trim(c.encode(b)) == c.encode(b))
    && (forall secret, m :: |c.sign(secret, m)| == 64 && c.verifyStrict(c.publicKey(secret), m, c.sign(secret, m)))
    && (forall secret :: c.validKey(c.publicKey(secret)))
  }

  function SignRotation(c: Crypto, recoverySecret: string, purpose: Purpose, n: nat, key: string): Option<Rotation> {
    var secret := DecodeKey(c, recoverySecret);
    if secret.None? || DecodeKey(c, key).None? then None
    else Some(Rotation(n, Trim(key), c.encode(c.sign(secret.value, Message(purpose, n, Trim(key))))))
  }

  /** What the operator's tool signs, every app with the matching recovery key accepts, if it is newer. */
  lemma SignedIsAccepted(c: Crypto, roots: Roots, recoverySecret: string, n: nat, key: string, learned: Option<Trust>)
    requires Ideal(c) && DecodeKey(c, recoverySecret).Some?
    requires roots.recovery == c.publicKey(DecodeKey(c, recoverySecret).value)
    ensures SignRotation(c, recoverySecret, roots.purpose, n, key).Some? <==> DecodeKey(c, key).Some?
    ensures var r := SignRotation(c, recoverySecret, roots.purpose, n, key);
      r.Some? ==> Names(c, roots, r.value)
                  && (CurrentKey(c, roots, learned, r).1.Some? <==> n > Standing(c, roots, learned).0)
                  && (n > Standing(c, roots, learned).0 ==>
                        CurrentKey(c, roots, learned, r).0 == DecodeKey(c, key).value)
  {
    TrimTwice(key);
  }

  // ---------------------------------------------------------------- the relay list that uses the key

  datatype RelayDirectory = RelayDirectory(version: nat, relays: seq<string>)

  datatype SignedDirectory = SignedDirectory(payload: string, sig: string, rotation: Option<Rotation>)

  type Parser = Bytes -> Option<RelayDirectory>

  function VerifyDirectory(c: Crypto, parse: Parser, signed: SignedDirectory, key: Key): Option<RelayDirectory> {
    if key == ZERO_KEY then None
    else
      var payload, sig := c.decode(signed.payload), c.decode(signed.sig);
      if payload.None? || sig.None? || |sig.value| != 64 || !c.validKey(key) || !c.verify(key, payload.value, sig.value)
      then None
      else parse(payload.value)
  }

  /** Which keys signed a list's payload, as verification tells it. */
  ghost predicate SignedBy(c: Crypto, signed: SignedDirectory, keys: set<Key>) {
    var payload := c.decode(signed.payload);
    payload.Some? ==> forall key, sig :: c.verify(key, payload.value, sig) ==> key in keys
  }

  datatype Outcome = Invalid | Current | Applied

  datatype Keeper = Keeper(trust: Option<Trust>, version: nat, relays: seq<string>)

  function CleanNames(relays: seq<string>): seq<string> {
    if relays == [] then []
    else
      var front, last := CleanNames(relays[..|relays| - 1]), Trim(relays[|relays| - 1]);
      if last == "" then front else front + [last]
  }

  /** Adopt a list that verifies under the current key and is newer; `None` is a list that does not parse. */
  function Adopt(c: Crypto, parse: Parser, roots: Roots, k: Keeper, wire: Option<SignedDirectory>): (Keeper, Outcome) {
    if wire.None? then (k, Invalid)
    else
      var (key, moved) := CurrentKey(c, roots, k.trust, wire.value.rotation);
      var dir := VerifyDirectory(c, parse, wire.value, key);
      if dir.None? then (k, Invalid)
      else
        var moved' := k.(trust := if moved.Some? then moved else k.trust);
        if dir.value.version <= k.version then (moved', Current)
        else (moved'.(version := dir.value.version, relays := CleanNames(dir.value.relays)), Applied)
  }

  lemma {:induction false} CleanNamesTell(relays: seq<string>) returns (places: seq<nat>)
    ensures |places| == |CleanNames(relays)|
    ensures forall k :: 0 <= k < |places| ==> places[k] < |relays| && CleanNames(relays)[k] == Trim(relays[places[k]])
    ensures forall j, k :: 0 <= j < k < |places| ==> places[j] < places[k]
    ensures forall i :: 0 <= i < |relays| ==> (i in places <==> Trim(relays[i]) != "")
  {
    places := [];
    if relays != [] {
      var n := |relays| - 1;
      places := CleanNamesTell(relays[..n]);
      if Trim(relays[n]) != "" {
        places := places + [n];
      }
    }
  }

  /** `signed` is the list `dir`, readable and signed by `key`. */
  ghost predicate SignsList(c: Crypto, parse: Parser, signed: SignedDirectory, key: Key, dir: RelayDirectory) {
    var payload, sig := c.decode(signed.payload), c.decode(signed.sig);
    && key != ZERO_KEY && c.validKey(key)
    && payload.Some? && sig.Some? && |sig.value| == 64
    && c.verify(key, payload.value, sig.value) && parse(payload.value) == Some(dir)
  }

  /**
   * What becomes of a fetched list: signed by the key that stands with its rotation counted in, it is applied when
   * newer and else leaves version and relays alone, its rotation remembered either way; any other changes nothing.
   */
  lemma AdoptTells(c: Crypto, parse: Parser, roots: Roots, k: Keeper, signed: SignedDirectory, dir: RelayDirectory)
    ensures var trust := Remembered(c, roots, k.trust, signed.rotation);
      var key := Standing(c, roots, trust).1;
      SignsList(c, parse, signed, key, dir) ==>
        Adopt(c, parse, roots, k, Some(signed))
        == if dir.version > k.version then (Keeper(trust, dir.version, CleanNames(dir.relays)), Applied)
           else (Keeper(trust, k.version, k.relays), Current)
    ensures var trust := Remembered(c, roots, k.trust, signed.rotation);
      (forall d :: !SignsList(c, parse, signed, Standing(c, roots, trust).1, d)) ==>
        Adopt(c, parse, roots, k, Some(signed)) == (k, Invalid)
  {
    StandingAfter(c, roots, k.trust, signed.rotation);
    var key := Standing(c, roots, Remembered(c, roots, k.trust, signed.rotation)).1;
    var found := VerifyDirectory(c, parse, signed, key);
    if found.Some? {
      assert SignsList(c, parse, signed, key, found.value);
    }
  }

  function AdoptAll(c: Crypto, parse: Parser, roots: Roots, k: Keeper, wires: seq<Option<SignedDirectory>>): Keeper {
    if wires == [] then k
    else Adopt(c, parse, roots, AdoptAll(c, parse, roots, k, wires[..|wires| - 1]), wires[|wires| - 1]).0
  }

  /** Neither the trusted sequence nor the list's version goes back; equal ones mean nothing changed there. */
  ghost predicate Rises(c: Crypto, roots: Roots, k: Keeper, k': Keeper) {
    var before, after := Standing(c, roots, k.trust), Standing(c, roots, k'.trust);
    && before.0 <= after.0 && (before.0 == after.0 ==> before == after)
    && k.version <= k'.version && (k.version == k'.version ==> k.relays == k'.relays)
  }

  lemma AdoptRises(c: Crypto, parse: Parser, roots: Roots, k: Keeper, wire: Option<SignedDirectory>)
    ensures Rises(c, roots, k, Adopt(c, parse, roots, k, wire).0)
  {
    if wire.Some? {
      StandingAfter(c, roots, k.trust, wire.value.rotation);
    }
  }

  lemma {:induction false} AdoptionOnlyRises(c: Crypto, parse: Parser, roots: Roots, k: Keeper,
                                             wires: seq<Option<SignedDirectory>>)
    ensures Rises(c, roots, k, AdoptAll(c, parse, roots, k, wires))
  {
    if wires != [] {
      var n := |wires| - 1;
      AdoptionOnlyRises(c, parse, roots, k, wires[..n]);
      AdoptRises(c, parse, roots, AdoptAll(c, parse, roots, k, wires[..n]), wires[n]);
    }
  }

  /** With sequence `n` trusted, a list carrying no newer rotation has to be signed by the key trusted then. */
  lemma OldListIsRefused(c: Crypto, parse: Parser, roots: Roots, k: Keeper, late: SignedDirectory, keys: set<Key>)
    requires SignedBy(c, late, keys) && Standing(c, roots, k.trust).1 !in keys
    requires late.rotation.Some? ==> late.rotation.value.seq_ <= Standing(c, roots, k.trust).0
    ensures Adopt(c, parse, roots, k, Some(late)) == (k, Invalid)
  {
    StandingAfter(c, roots, k.trust, late.rotation);
  }

  class DirectoryKeeper {
    var directoryKey: Option<Trust>
    var directoryVersion: nat
    var discoveredRelays: seq<string>

    function View(): Keeper
      reads this
    {
      Keeper(directoryKey, directoryVersion, discoveredRelays)
    }

    constructor ()
      ensures View() == Keeper(None, 0, [])
    {
      directoryKey, directoryVersion, discoveredRelays := None, 0, [];
    }

    method AdoptDirectory(c: Crypto, parse: Parser, roots: Roots,
                          wire: Option<SignedDirectory>) returns (outcome: Outcome)
      modifies this
      ensures (View(), outcome) == Adopt(c, parse, roots, old(View()), wire)
    {
      if wire.None? {
        return Invalid;
      }
      var (key, moved) := CurrentKey(c, roots, directoryKey, wire.value.rotation);
      var dir := VerifyDirectory(c, parse, wire.value, key);
      if dir.None? {
        return Invalid;
      }
      if moved.Some? {
        directoryKey := moved;
      }
      if dir.value.version <= directoryVersion {
        return Current;
      }
      discoveredRelays, directoryVersion := CleanNames(dir.value.relays), dir.value.version;
      return Applied;
    }
  }
}
