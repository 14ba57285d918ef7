/** Length-prefixed fields and the envelopes built from them. */
module Codec {
  import opened Wrappers
  import opened Bytes

  // ---------------------------------------------------------------- one field

  /** The length is cast to 32 bits, whatever it was. */
  function Put(v: Bytes): Bytes {
    ToBe(|v|, 4) + v
  }

  /** A field read at `p`, and where it ended. */
  function Take(buf: Bytes, p: nat): Option<(Bytes, nat)> {
    if p + 4 > |buf| then None
    else
      var end := p + 4 + FromBe(buf[p..p + 4]);
      if end > |buf| then None else Some((buf[p + 4..end], end))
  }

  lemma TakeSound(buf: Bytes, p: nat)
    requires Take(buf, p).Some?
    ensures var (v, q) := Take(buf, p).value;
      p <= q <= |buf| && |v| < U32 && buf[p..q] == Put(v)
  {
    var head := buf[p..p + 4];
    Be4Writes(head);
    var (v, q) := Take(buf, p).value;
    assert |v| == FromBe(head);
    assert buf[p..q] == head + v;
  }

  lemma TakeComplete(buf: Bytes, p: nat, v: Bytes, q: nat)
    requires p <= q <= |buf| && |v| < U32 && buf[p..q] == Put(v)
    ensures Take(buf, p) == Some((v, q))
  {
    var head := ToBe(|v|, 4);
    Be4(|v|);
    assert buf[p..q] == head + v;
    assert buf[p..p + 4] == buf[p..q][..4] == head;
    assert buf[p + 4..q] == buf[p..q][4..] == v;
  }

  /** A field is read exactly where its bytes stand: nothing outside the buffer, nothing but what writing it gives. */
  lemma TakeExact(buf: Bytes, p: nat, v: Bytes, q: nat)
    ensures Take(buf, p) == Some((v, q)) <==> p <= q <= |buf| && |v| < U32 && buf[p..q] == Put(v)
  {
    if Take(buf, p) == Some((v, q)) {
      TakeSound(buf, p);
    }
    if p <= q <= |buf| && |v| < U32 && buf[p..q] == Put(v) {
      TakeComplete(buf, p, v, q);
    }
  }

  lemma HeadAndValue(before: Bytes, head: Bytes, v: Bytes, after: Bytes, k: nat)
    requires |head| == 4 && k <= |v|
    ensures var (buf, p) := (before + (head + v) + after, |before|);
      && p + 4 + k <= |buf|
      && buf[p..p + 4] == head && buf[p + 4..p + 4 + k] == v[..k]
  {
  }

  /** A value written anywhere is read back up to the 32-bit cast of its length. */
  lemma PutReads(before: Bytes, v: Bytes, after: Bytes)
    ensures Take(before + Put(v) + after, |before|) == Some((v[..|v| % U32], |before| + 4 + |v| % U32))
  {
    Be4(|v|);
    HeadAndValue(before, ToBe(|v|, 4), v, after, |v| % U32);
  }

  /** So exactly the values shorter than 2^32 survive. */
  lemma PutTakes(before: Bytes, v: Bytes, after: Bytes)
    ensures Take(before + Put(v) + after, |before|) == Some((v, |before| + |Put(v)|)) <==> |v| < U32
  {
    PutReads(before, v, after);
    assert |v[..|v| % U32]| == |v| % U32;
    assert v[..|v|] == v;
  }

  /** The reader, with its cursor and the machine's address width. */
  class Cursor {
    const buf: Bytes
    const usizeMax: nat
    var p: nat

    constructor (buf: Bytes, usizeMax: nat)
      requires |buf| <= usizeMax
      ensures this.buf == buf && this.usizeMax == usizeMax && p == 0
    {
      this.buf, this.usizeMax, p := buf, usizeMax, 0;
    }

    function CheckedAdd(a: nat, b: nat): Option<nat> {
      if a + b > usizeMax then None else Some(a + b)
    }

    /** Fails cleanly for any offset; the address width never changes the answer. */
    method TakeField() returns (r: Result<Bytes, ()>)
      requires |buf| <= usizeMax
      modifies this`p
      ensures match Take(buf, old(p))
              case Some(taken) => r == Ok(taken.0) && p == taken.1
              case None => r.Err? && p == old(p)
    {
      var lenEnd := CheckedAdd(p, 4);
      if lenEnd.None? || lenEnd.value > |buf| {
        return Err(());
      }
      var n := FromBe(buf[p..lenEnd.value]);
      var end := CheckedAdd(lenEnd.value, n);
      if end.None? || end.value > |buf| {
        return Err(());
      }
      r := Ok(buf[lenEnd.value..end.value]);
      p := end.value;
    }
  }

  // ---------------------------------------------------------------- several fields

  /** The fields `vs` one after another. */
  function PutAll(vs: seq<Bytes>): Bytes {
    if vs == [] then [] else PutAll(vs[..|vs| - 1]) + Put(vs[|vs| - 1])
  }

  /** `n` fields from the start, and where they ended. */
  function TakeAll(buf: Bytes, n: nat): Option<(seq<Bytes>, nat)> {
    if n == 0 then Some(([], 0))
    else
      var front := TakeAll(buf, n - 1);
      if front.None? then None
      else
        var last := Take(buf, front.value.1);
        if last.None? then None else Some((front.value.0 + [last.value.0], last.value.1))
  }

  predicate Short(vs: seq<Bytes>) {
    forall i :: 0 <= i < |vs| ==> |vs[i]| < U32
  }

  /** What is read is what stands at the start of the buffer, field by field. */
  lemma {:induction false} TakeAllSound(buf: Bytes, n: nat)
    requires TakeAll(buf, n).Some?
    ensures var (vs, q) := TakeAll(buf, n).value;
      |vs| == n && Short(vs) && q <= |buf| && buf[..q] == PutAll(vs)
  {
    if n > 0 {
      TakeAllSound(buf, n - 1);
      var (front, p) := TakeAll(buf, n - 1).value;
      var (last, q) := Take(buf, p).value;
      TakeExact(buf, p, last, q);
      assert (front + [last])[..n - 1] == front;
      assert buf[..q] == buf[..p] + buf[p..q];
    }
  }

  lemma FieldAfter(buf: Bytes, before: Bytes, v: Bytes)
    requires before + Put(v) <= buf && |v| < U32
    ensures before <= buf && Take(buf, |before|) == Some((v, |before + Put(v)|))
  {
    var whole := before + Put(v);
    assert whole == buf[..|whole|];
    assert before == whole[..|before|];
    assert buf[|before|..|whole|] == whole[|before|..] == Put(v);
    TakeComplete(buf, |before|, v, |whole|);
  }

  /** Short fields at the start of the buffer are read, whatever follows them. */
  lemma {:induction false} TakeAllComplete(buf: Bytes, vs: seq<Bytes>)
    requires Short(vs) && PutAll(vs) <= buf
    ensures TakeAll(buf, |vs|) == Some((vs, |PutAll(vs)|))
  {
    if vs != [] {
      var front, last := vs[..|vs| - 1], vs[|vs| - 1];
      FieldAfter(buf, PutAll(front), last);
      TakeAllComplete(buf, front);
      assert vs == front + [last];
    }
  }

  /** Reading gives `vs` exactly when the buffer starts with `vs` written out and each fits 32 bits. */
  lemma TakeAllExact(buf: Bytes, vs: seq<Bytes>)
    ensures TakeAll(buf, |vs|).Some? && TakeAll(buf, |vs|).value.0 == vs <==> Short(vs) && PutAll(vs) <= buf
    ensures TakeAll(buf, |vs|).Some? && TakeAll(buf, |vs|).value.0 == vs ==> TakeAll(buf, |vs|).value.1 == |PutAll(vs)|
  {
    if TakeAll(buf, |vs|).Some? {
      TakeAllSound(buf, |vs|);
      var q := TakeAll(buf, |vs|).value.1;
      assert buf[..q] <= buf;
    }
    if Short(vs) && PutAll(vs) <= buf {
      TakeAllComplete(buf, vs);
    }
  }

  // ---------------------------------------------------------------- the handshake's blobs

  function TwoFields(blob: Bytes): Option<(Bytes, Bytes)> {
    var a := Take(blob, 0);
    if a.None? then None
    else
      var b := Take(blob, a.value.1);
      if b.None? then None else Some((a.value.0, b.value.0))
  }

  function ThreeFields(blob: Bytes): Option<(Bytes, Bytes, Bytes)> {
    var a := Take(blob, 0);
    if a.None? then None
    else
      var b := Take(blob, a.value.1);
      if b.None? then None
      else
        var c := Take(blob, b.value.1);
        if c.None? then None else Some((a.value.0, b.value.0, c.value.0))
  }

  lemma Unrolled(blob: Bytes)
    ensures TwoFields(blob).Some? <==> TakeAll(blob, 2).Some?
    ensures TwoFields(blob).Some? ==> [TwoFields(blob).value.0, TwoFields(blob).value.1] == TakeAll(blob, 2).value.0
    ensures ThreeFields(blob).Some? <==> TakeAll(blob, 3).Some?
    ensures ThreeFields(blob).Some? ==>
              var (a, b, c) := ThreeFields(blob).value;
              [a, b, c] == TakeAll(blob, 3).value.0
  {
    assert TakeAll(blob, 0) == Some(([], 0));
    if Take(blob, 0).Some? {
      assert [] + [Take(blob, 0).value.0] == [Take(blob, 0).value.0];
    }
  }

  /** An opener splits exactly when it starts with its two fields; anything after them is ignored. */
  lemma TwoFieldsExact(blob: Bytes, a: Bytes, b: Bytes)
    ensures TwoFields(blob) == Some((a, b)) <==> |a| < U32 && |b| < U32 && Put(a) + Put(b) <= blob
  {
    Unrolled(blob);
    TakeAllExact(blob, [a, b]);
    PutPair(a, b);
    if TwoFields(blob).Some? {
      TakeAllSound(blob, 2);
    }
  }

  lemma PutPair(a: Bytes, b: Bytes)
    ensures PutAll([a, b]) == Put(a) + Put(b)
    ensures Short([a, b]) <==> |a| < U32 && |b| < U32
  {
    assert [a, b][..1] == [a] && [a][..0] == [];
    assert PutAll([a]) == Put(a);
    assert [a, b][0] == a && [a, b][1] == b;
  }

  lemma PutTriple(a: Bytes, b: Bytes, c: Bytes)
    ensures PutAll([a, b, c]) == Put(a) + Put(b) + Put(c)
    ensures Short([a, b, c]) <==> |a| < U32 && |b| < U32 && |c| < U32
  {
    assert [a, b, c][..2] == [a, b];
    PutPair(a, b);
    assert [a, b, c][0] == a && [a, b, c][1] == b && [a, b, c][2] == c;
  }

  lemma ThreeFieldsExact(blob: Bytes, a: Bytes, b: Bytes, c: Bytes)
    ensures ThreeFields(blob) == Some((a, b, c))
       <==> |a| < U32 && |b| < U32 && |c| < U32 && Put(a) + Put(b) + Put(c) <= blob
  {
    Unrolled(blob);
    TakeAllExact(blob, [a, b, c]);
    PutTriple(a, b, c);
  }

  lemma Regrouped(x: Bytes, y: Bytes, z: Bytes)
    ensures x + y + z == [] + x + (y + z) && x + y + z == (x + y) + z + [] && |x + y| == |x| + |y|
  {
  }

  lemma ShortReads(before: Bytes, v: Bytes, after: Bytes)
    requires |v| < U32
    ensures Take(before + Put(v) + after, |before|) == Some((v, |before| + |Put(v)|))
  {
    PutTakes(before, v, after);
  }

  /** Three values written: the last is read back cut, when it is too long for its length. */
  lemma ThreeFieldsCut(a: Bytes, b: Bytes, c: Bytes)
    requires |a| < U32 && |b| < U32
    ensures ThreeFields(Put(a) + Put(b) + Put(c)) == Some((a, b, c[..|c| % U32]))
  {
    var (x, y, z) := (Put(a), Put(b), Put(c));
    Regrouped(x, y, z);
    ShortReads([], a, y + z);
    ShortReads(x, b, z);
    PutReads(x + y, c, []);
  }

  // ---------------------------------------------------------------- envelopes

  /** The rules applied to what a contact chose: none of them is this module's. */
  datatype Limits = Limits(clamp: Text -> Text, saneId: Text -> bool, sanitize: (Text, Text) -> (Text, Text))

  function PackEdit(target: Text, text: Text): Bytes {
    Put(target) + text
  }

  function UnpackEdit(l: Limits, buf: Bytes): Result<(Text, Text), ()> {
    var f := Take(buf, 0);
    if f.None? || !Utf8(f.value.0) then Err(())
    else
      TakeExact(buf, 0, f.value.0, f.value.1);
      if !Utf8(buf[f.value.1..]) then Err(()) else Ok((f.value.0, l.clamp(buf[f.value.1..])))
  }

  lemma FirstField(v: Bytes, after: Bytes)
    requires |v| < U32
    ensures Take(Put(v) + after, 0) == Some((v, |Put(v)|)) && (Put(v) + after)[|Put(v)|..] == after
  {
    PutReads([], v, after);
    assert [] + Put(v) + after == Put(v) + after;
    assert v[..|v|] == v;
  }

  /** An edit unpacks to its own target and text, clamped, exactly when its target's length fits 32 bits. */
  lemma EditReturns(l: Limits, target: Text, text: Text)
    ensures UnpackEdit(l, PackEdit(target, text)) == Ok((target, l.clamp(text))) <==> |target| < U32
  {
    if |target| < U32 {
      FirstField(target, text);
    } else {
      PutReads([], target, text);
      assert [] + Put(target) + text == PackEdit(target, text);
    }
  }

  /** And nothing else unpacks: whatever does is some edit, packed. */
  lemma EditInverse(l: Limits, buf: Bytes)
    requires UnpackEdit(l, buf).Ok?
    ensures var (target, clamped) := UnpackEdit(l, buf).value;
      exists text: Text :: buf == PackEdit(target, text) && clamped == l.clamp(text)
  {
    var f := Take(buf, 0).value;
    TakeExact(buf, 0, f.0, f.1);
    var text: Text := buf[f.1..];
    assert buf == buf[0..f.1] + text;
    assert buf == PackEdit(f.0, text);
  }

  function PackBurn(secs: nat, text: Text): Bytes {
    Put(ShowBytes(secs)) + text
  }

  function Or0(o: Option<nat>): nat {
    if o.Some? then o.value else 0
  }

  function UnpackBurn(l: Limits, buf: Bytes): Result<(nat, Text), ()> {
    var f := Take(buf, 0);
    if f.None? || !Utf8(f.value.0) then Err(())
    else
      TakeExact(buf, 0, f.value.0, f.value.1);
      if !Utf8(buf[f.value.1..]) then Err(()) else Ok((Or0(ParseU64(f.value.0)), l.clamp(buf[f.value.1..])))
  }

  /** A burn message keeps its timer and its text, whatever they are. */
  lemma BurnReturns(l: Limits, secs: nat, text: Text)
    requires secs < U64
    ensures UnpackBurn(l, PackBurn(secs, text)) == Ok((secs, l.clamp(text)))
  {
    ParseShown(secs);
    FirstField(ShowBytes(secs), text);
  }

  /** A timer other than 0 was written as one: an unreadable timer is 0, never some other number. */
  lemma BurnTimerWasWritten(l: Limits, buf: Bytes)
    requires UnpackBurn(l, buf).Ok? && UnpackBurn(l, buf).value.0 != 0
    ensures exists timer: Text, text: Text ::
              buf == Put(timer) + text && ParseU64(timer) == Some(UnpackBurn(l, buf).value.0)
  {
    var f := Take(buf, 0).value;
    TakeExact(buf, 0, f.0, f.1);
    var timer: Text, text: Text := f.0, buf[f.1..];
    assert buf == buf[0..f.1] + text;
    assert buf == Put(timer) + text;
  }

  // ---------------------------------------------------------------- media

  datatype Media = Media(transferId: Text, kind: Text, mime: Text, data: Bytes)

  predicate ShortMedia(m: Media) {
    |m.transferId| < U32 && |m.kind| < U32 && |m.mime| < U32
  }

  function PackMedia(m: Media): Bytes {
    Put(m.transferId) + Put(m.kind) + Put(m.mime) + m.data
  }

  /** Three texts from offset `p`, each checked before the next is read. */
  function TakeTexts(l: Limits, buf: Bytes, p: nat): Result<(Media, nat), ()> {
    var a := Take(buf, p);
    if a.None? || !Utf8(a.value.0) || !l.saneId(a.value.0) then Err(())
    else
      var b := Take(buf, a.value.1);
      if b.None? || !Utf8(b.value.0) then Err(())
      else
        var c := Take(buf, b.value.1);
        if c.None? || !Utf8(c.value.0) then Err(())
        else
          var kinds := l.sanitize(b.value.0, c.value.0);
          Ok((Media(a.value.0, kinds.0, kinds.1, []), c.value.1))
  }

  function Rest(buf: Bytes, p: nat): Bytes {
    if p <= |buf| then buf[p..] else []
  }

  function UnpackMedia(l: Limits, buf: Bytes): Result<Media, ()> {
    var r := TakeTexts(l, buf, 0);
    if r.Err? then Err(()) else Ok(r.value.0.(data := Rest(buf, r.value.1)))
  }

  function Sanitized(l: Limits, m: Media): Media {
    var kinds := l.sanitize(m.kind, m.mime);
    m.(kind := kinds.0, mime := kinds.1)
  }

  lemma FieldAt(buf: Bytes, p: nat, v: Bytes)
    requires |v| < U32 && p <= |buf| && Put(v) <= buf[p..]
    ensures Take(buf, p) == Some((v, p + |Put(v)|))
  {
    TakeExact(buf, p, v, p + |Put(v)|);
    assert buf[p..p + |Put(v)|] == buf[p..][..|Put(v)|];
  }

  lemma Parts(s: Bytes, a: Bytes, b: Bytes, c: Bytes)
    requires a + b + c <= s
    ensures a <= s && b <= s[|a|..] && c <= s[|a| + |b|..]
  {
    var whole := a + b + c;
    assert whole == s[..|whole|];
    assert a == whole[..|a|] && b == whole[|a|..|a| + |b|] && c == whole[|a| + |b|..];
  }

  /** Three short texts standing at `p` are read from there. */
  lemma TextsReturn(l: Limits, buf: Bytes, p: nat, m: Media)
    requires ShortMedia(m) && p <= |buf| && Put(m.transferId) + Put(m.kind) + Put(m.mime) <= buf[p..]
    ensures TakeTexts(l, buf, p)
         == if l.saneId(m.transferId)
            then Ok((Sanitized(l, m.(data := [])), p + |Put(m.transferId)| + |Put(m.kind)| + |Put(m.mime)|))
            else Err(())
  {
    Parts(buf[p..], Put(m.transferId), Put(m.kind), Put(m.mime));
    FieldAt(buf, p, m.transferId);
    var p2 := p + |Put(m.transferId)|;
    assert buf[p..][|Put(m.transferId)|..] == buf[p2..];
    FieldAt(buf, p2, m.kind);
    var p3 := p2 + |Put(m.kind)|;
    assert buf[p..][|Put(m.transferId)| + |Put(m.kind)|..] == buf[p3..];
    FieldAt(buf, p3, m.mime);
  }

  lemma PastTexts(head: Bytes, a: Bytes, b: Bytes, c: Bytes, after: Bytes)
    ensures var buf := head + a + b + c + after;
      && a + b + c <= buf[|head|..]
      && buf[|head| + |a| + |b| + |c|..] == after
  {
    assert (head + a + b + c + after)[|head|..] == a + b + c + after;
  }

  /** The first fields of `buf` are read as `vs`. */
  predicate ReadsAs(buf: Bytes, vs: seq<Bytes>) {
    TakeAll(buf, |vs|).Some? && TakeAll(buf, |vs|).value.0 == vs
  }

  lemma ReadsIff(vs: seq<Bytes>, after: Bytes)
    ensures ReadsAs(PutAll(vs) + after, vs) <==> Short(vs)
  {
    TakeAllExact(PutAll(vs) + after, vs);
  }

  /** What is unpacked is made of the three fields read, and of nothing else. */
  lemma TextsAreFields(l: Limits, buf: Bytes)
    requires TakeTexts(l, buf, 0).Ok?
    ensures TakeAll(buf, 3).Some?
    ensures var (fields, q) := TakeAll(buf, 3).value;
      var (read, q') := TakeTexts(l, buf, 0).value;
      && q == q' && |fields| == 3 && read.transferId == fields[0] && Utf8(fields[1]) && Utf8(fields[2])
      && (read.kind, read.mime) == l.sanitize(fields[1], fields[2])
  {
    var a := Take(buf, 0).value;
    var b := Take(buf, a.1).value;
    assert TakeAll(buf, 0) == Some(([], 0)) && [] + [a.0] == [a.0];
    assert TakeAll(buf, 1) == Some(([a.0], a.1));
    assert [a.0] + [b.0] == [a.0, b.0];
    assert TakeAll(buf, 2) == Some(([a.0, b.0], b.1));
    var kinds := l.sanitize(b.0, Take(buf, b.1).value.0);
    assert (kinds.0, kinds.1) == kinds;
  }

  /**
   * The fields of packed media are read as they were written exactly when each is short; then it comes back with its
   * own data, its kind and mime sanitized, exactly when its id is sane.
   */
  lemma MediaReturns(l: Limits, m: Media)
    ensures ReadsAs(PackMedia(m), [m.transferId, m.kind, m.mime]) <==> ShortMedia(m)
    ensures ShortMedia(m) ==>
              UnpackMedia(l, PackMedia(m)) == if l.saneId(m.transferId) then Ok(Sanitized(l, m)) else Err(())
  {
    PutTriple(m.transferId, m.kind, m.mime);
    ReadsIff([m.transferId, m.kind, m.mime], m.data);
    if ShortMedia(m) {
      PastTexts([], Put(m.transferId), Put(m.kind), Put(m.mime), m.data);
      assert [] + Put(m.transferId) == Put(m.transferId);
      TextsReturn(l, PackMedia(m), 0, m);
    }
  }

  function PackBurnMedia(secs: nat, m: Media): Bytes {
    Put(ShowBytes(secs)) + Put(m.transferId) + Put(m.kind) + Put(m.mime) + m.data
  }

  function UnpackBurnMedia(l: Limits, buf: Bytes): Result<(nat, Media), ()> {
    var f := Take(buf, 0);
    if f.None? || !Utf8(f.value.0) then Err(())
    else
      var r := TakeTexts(l, buf, f.value.1);
      if r.Err? then Err(()) else Ok((Or0(ParseU64(f.value.0)), r.value.0.(data := Rest(buf, r.value.1))))
  }

  lemma BurnMediaAt(l: Limits, buf: Bytes, timer: Text, p: nat, m: Media, q: nat)
    requires Take(buf, 0) == Some((timer, p))
    requires TakeTexts(l, buf, p) == if l.saneId(m.transferId) then Ok((Sanitized(l, m.(data := [])), q)) else Err(())
    requires q <= |buf| && buf[q..] == m.data
    ensures UnpackBurnMedia(l, buf)
         == if l.saneId(m.transferId) then Ok((Or0(ParseU64(timer)), Sanitized(l, m))) else Err(())
  {
    SanitizedData(l, m);
  }

  lemma SanitizedData(l: Limits, m: Media)
    ensures Sanitized(l, m.(data := [])).(data := m.data) == Sanitized(l, m)
  {
  }

  lemma PutFour(t: Bytes, a: Bytes, b: Bytes, c: Bytes)
    ensures PutAll([t, a, b, c]) == Put(t) + Put(a) + Put(b) + Put(c)
    ensures Short([t, a, b, c]) <==> |t| < U32 && |a| < U32 && |b| < U32 && |c| < U32
  {
    assert [t, a, b, c][..3] == [t, a, b];
    PutTriple(t, a, b);
    var all := [t, a, b, c];
    assert all[0] == t && all[1] == a && all[2] == b && all[3] == c;
  }

  /** Likewise burn media, whose timer is always short. */
  lemma BurnMediaReturns(l: Limits, secs: nat, m: Media)
    requires secs < U64
    ensures ReadsAs(PackBurnMedia(secs, m), [ShowBytes(secs), m.transferId, m.kind, m.mime]) <==> ShortMedia(m)
    ensures ShortMedia(m) ==>
              UnpackBurnMedia(l, PackBurnMedia(secs, m))
              == if l.saneId(m.transferId) then Ok((secs, Sanitized(l, m))) else Err(())
  {
    ParseShown(secs);
    PutFour(ShowBytes(secs), m.transferId, m.kind, m.mime);
    ReadsIff([ShowBytes(secs), m.transferId, m.kind, m.mime], m.data);
    if ShortMedia(m) {
      ShortBurnMediaReturns(l, secs, m);
    }
  }

  lemma ShortBurnMediaReturns(l: Limits, secs: nat, m: Media)
    requires secs < U64 && ShortMedia(m)
    ensures UnpackBurnMedia(l, PackBurnMedia(secs, m))
         == if l.saneId(m.transferId) then Ok((secs, Sanitized(l, m))) else Err(())
  {
    ParseShown(secs);
    MediaAfterTimer(l, ShowBytes(secs), m);
  }

  lemma MediaAfterTimer(l: Limits, timer: Text, m: Media)
    requires |timer| < U32 && ShortMedia(m)
    ensures UnpackBurnMedia(l, Put(timer) + Put(m.transferId) + Put(m.kind) + Put(m.mime) + m.data)
         == if l.saneId(m.transferId) then Ok((Or0(ParseU64(timer)), Sanitized(l, m))) else Err(())
  {
    var (head, a, b, c) := (Put(timer), Put(m.transferId), Put(m.kind), Put(m.mime));
    var buf := head + a + b + c + m.data;
    PastTexts(head, a, b, c, m.data);
    assert head <= buf[0..];
    BurnMediaFrom(l, buf, timer, m, |head|, |head| + |a| + |b| + |c|);
  }

  lemma BurnMediaFrom(l: Limits, buf: Bytes, timer: Text, m: Media, p: nat, q: nat)
    requires |timer| < U32 && ShortMedia(m)
    requires p == |Put(timer)| <= |buf| && Put(timer) <= buf[0..]
    requires Put(m.transferId) + Put(m.kind) + Put(m.mime) <= buf[p..]
    requires q == p + |Put(m.transferId)| + |Put(m.kind)| + |Put(m.mime)| <= |buf| && buf[q..] == m.data
    ensures UnpackBurnMedia(l, buf)
         == if l.saneId(m.transferId) then Ok((Or0(ParseU64(timer)), Sanitized(l, m))) else Err(())
  {
    FieldAt(buf, 0, timer);
    TextsReturn(l, buf, p, m);
    BurnMediaAt(l, buf, timer, p, m, q);
  }

  function PackMediaIncoming(m: Media, size: nat): Bytes {
    Put(m.transferId) + Put(m.kind) + Put(m.mime) + ToBe(size, 8) + m.data
  }

  /** The thumbnail is the announcement's data. */
  function UnpackMediaIncoming(l: Limits, buf: Bytes): Result<(Media, nat), ()> {
    var r := TakeTexts(l, buf, 0);
    if r.Err? then Err(())
    else
      var p := r.value.1;
      if p + 8 > |buf| then Err(())
      else Ok((r.value.0.(data := buf[p + 8..]), FromBe(buf[p..p + 8])))
  }

  lemma SizeThenData(buf: Bytes, p: nat, size: Bytes, data: Bytes)
    requires p <= |buf| && buf[p..] == size + data
    ensures p + |size| + |data| == |buf| && buf[p..p + |size|] == size && buf[p + |size|..] == data
  {
    assert buf[p..p + |size|] == buf[p..][..|size|];
    assert buf[p + |size|..] == buf[p..][|size|..];
  }

  lemma IncomingAt(l: Limits, buf: Bytes, m: Media, size: Bytes, q: nat)
    requires TakeTexts(l, buf, 0) == if l.saneId(m.transferId) then Ok((Sanitized(l, m.(data := [])), q)) else Err(())
    requires q <= |buf| && buf[q..] == size + m.data && |size| == 8
    ensures UnpackMediaIncoming(l, buf)
         == if l.saneId(m.transferId) then Ok((Sanitized(l, m), FromBe(size))) else Err(())
  {
    SizeThenData(buf, q, size, m.data);
  }

  /** And an announcement of media, with its size. */
  lemma MediaIncomingReturns(l: Limits, m: Media, size: nat)
    requires size < U64
    ensures ReadsAs(PackMediaIncoming(m, size), [m.transferId, m.kind, m.mime]) <==> ShortMedia(m)
    ensures ShortMedia(m) ==>
              UnpackMediaIncoming(l, PackMediaIncoming(m, size))
              == if l.saneId(m.transferId) then Ok((Sanitized(l, m), size)) else Err(())
  {
    var (head, size8) := (Put(m.transferId) + Put(m.kind) + Put(m.mime), ToBe(size, 8));
    PutTriple(m.transferId, m.kind, m.mime);
    ReadsIff([m.transferId, m.kind, m.mime], size8 + m.data);
    assert PackMediaIncoming(m, size) == head + (size8 + m.data);
    if ShortMedia(m) {
      Be8(size);
      IncomingPast(m, size);
      IncomingReturns(l, PackMediaIncoming(m, size), m, size8);
    }
  }

  lemma IncomingReturns(l: Limits, buf: Bytes, m: Media, size: Bytes)
    requires ShortMedia(m) && |size| == 8
    requires Put(m.transferId) + Put(m.kind) + Put(m.mime) <= buf[0..]
    requires |Put(m.transferId)| + |Put(m.kind)| + |Put(m.mime)| <= |buf|
    requires buf[|Put(m.transferId)| + |Put(m.kind)| + |Put(m.mime)|..] == size + m.data
    ensures UnpackMediaIncoming(l, buf)
         == if l.saneId(m.transferId) then Ok((Sanitized(l, m), FromBe(size))) else Err(())
  {
    TextsReturn(l, buf, 0, m);
    IncomingAt(l, buf, m, size, |Put(m.transferId)| + |Put(m.kind)| + |Put(m.mime)|);
  }

  lemma IncomingPast(m: Media, size: nat)
    ensures var buf := PackMediaIncoming(m, size);
      && Put(m.transferId) + Put(m.kind) + Put(m.mime) <= buf[0..]
      && |Put(m.transferId)| + |Put(m.kind)| + |Put(m.mime)| <= |buf|
      && buf[|Put(m.transferId)| + |Put(m.kind)| + |Put(m.mime)|..] == ToBe(size, 8) + m.data
  {
    var (a, b, c) := (Put(m.transferId), Put(m.kind), Put(m.mime));
    PastTexts([], a, b, c, ToBe(size, 8) + m.data);
    assert [] + a == a;
    assert a + b + c + (ToBe(size, 8) + m.data) == PackMediaIncoming(m, size);
  }

  /** `q` ends three texts standing at `p`, whose sanitized form `read` keeps. */
  ghost predicate StandsAt(l: Limits, buf: Bytes, p: nat, read: Media, q: nat, kind: Text, mime: Text) {
    && p <= q <= |buf|
    && buf[p..q] == Put(read.transferId) + Put(kind) + Put(mime)
    && (read.kind, read.mime) == l.sanitize(kind, mime)
  }

  lemma Between(buf: Bytes, p: nat, x: nat, y: nat, z: nat)
    requires p <= x <= y <= z <= |buf|
    ensures buf[p..z] == buf[p..x] + buf[x..y] + buf[y..z]
  {
  }

  /** Reading three texts reads what stands at `p`, and their sanitized form is all that is kept of them. */
  lemma TextsInverse(l: Limits, buf: Bytes, p: nat) returns (kind: Text, mime: Text)
    requires TakeTexts(l, buf, p).Ok?
    ensures var (read, q) := TakeTexts(l, buf, p).value;
      l.saneId(read.transferId) && StandsAt(l, buf, p, read, q, kind, mime)
  {
    var a := Take(buf, p).value;
    var b := Take(buf, a.1).value;
    var c := Take(buf, b.1).value;
    TakeExact(buf, p, a.0, a.1);
    TakeExact(buf, a.1, b.0, b.1);
    TakeExact(buf, b.1, c.0, c.1);
    kind, mime := b.0, c.0;
    Between(buf, p, a.1, b.1, c.1);
    var kinds := l.sanitize(kind, mime);
    assert (kinds.0, kinds.1) == kinds;
  }

  /** From where three texts stand, the rest of the buffer is the media they begin. */
  lemma StandsAsMedia(l: Limits, buf: Bytes, p: nat, read: Media, q: nat, kind: Text, mime: Text)
    requires StandsAt(l, buf, p, read, q, kind, mime)
    ensures var m := Media(read.transferId, kind, mime, buf[q..]);
      buf == buf[..p] + PackMedia(m) && Sanitized(l, m) == read.(data := buf[q..])
  {
    var m := Media(read.transferId, kind, mime, buf[q..]);
    assert PackMedia(m) == buf[p..q] + buf[q..];
    assert buf == buf[..p] + (buf[p..q] + buf[q..]);
  }

  /** Whatever unpacks as media is some media packed. */
  lemma MediaInverse(l: Limits, buf: Bytes)
    requires UnpackMedia(l, buf).Ok?
    ensures exists m: Media :: buf == PackMedia(m) && Sanitized(l, m) == UnpackMedia(l, buf).value
  {
    var kind, mime := TextsInverse(l, buf, 0);
    var (read, q) := TakeTexts(l, buf, 0).value;
    var m := Media(read.transferId, kind, mime, buf[q..]);
    StandsAsMedia(l, buf, 0, read, q, kind, mime);
    assert buf[..0] + PackMedia(m) == PackMedia(m);
    assert Sanitized(l, m) == UnpackMedia(l, buf).value;
  }

  /** Whatever unpacks as burn media is a timer and some media, packed; an unreadable timer is 0. */
  lemma BurnMediaInverse(l: Limits, buf: Bytes)
    requires UnpackBurnMedia(l, buf).Ok?
    ensures exists timer: Text, m: Media ::
              && buf == Put(timer) + PackMedia(m)
              && UnpackBurnMedia(l, buf).value == (Or0(ParseU64(timer)), Sanitized(l, m))
  {
    var f := Take(buf, 0).value;
    TakeExact(buf, 0, f.0, f.1);
    var kind, mime := TextsInverse(l, buf, f.1);
    var (read, q) := TakeTexts(l, buf, f.1).value;
    var timer: Text := f.0;
    var m := Media(read.transferId, kind, mime, buf[q..]);
    StandsAsMedia(l, buf, f.1, read, q, kind, mime);
    assert buf[0..f.1] == buf[..f.1];
    assert buf == Put(timer) + PackMedia(m);
    assert Sanitized(l, m) == UnpackBurnMedia(l, buf).value.1;
  }

  /** Whatever unpacks as an announcement is some announcement packed. */
  lemma MediaIncomingInverse(l: Limits, buf: Bytes)
    requires UnpackMediaIncoming(l, buf).Ok?
    ensures exists m: Media, size: nat ::
              && size < U64 && buf == PackMediaIncoming(m, size)
              && UnpackMediaIncoming(l, buf).value == (Sanitized(l, m), size)
  {
    var kind, mime := TextsInverse(l, buf, 0);
    var (read, q) := TakeTexts(l, buf, 0).value;
    var m := Media(read.transferId, kind, mime, buf[q + 8..]);
    var size := FromBe(buf[q..q + 8]);
    Be8Writes(buf[q..q + 8]);
    Between(buf, 0, q, q + 8, |buf|);
    assert buf[0..|buf|] == buf && buf[q + 8..|buf|] == m.data;
    assert buf == PackMediaIncoming(m, size);
    assert Sanitized(l, m) == UnpackMediaIncoming(l, buf).value.0;
  }

  // ---------------------------------------------------------------- the envelopes on the wire

  /** Which fields each envelope is made of, in which order, and what follows them. */
  lemma EnvelopeLayouts(m: Media, secs: nat, size: nat, target: Text, text: Text)
    ensures PackEdit(target, text) == PutAll([target]) + text
    ensures PackBurn(secs, text) == PutAll([ShowBytes(secs)]) + text
    ensures PackMedia(m) == PutAll([m.transferId, m.kind, m.mime]) + m.data
    ensures PackBurnMedia(secs, m) == PutAll([ShowBytes(secs), m.transferId, m.kind, m.mime]) + m.data
    ensures PackMediaIncoming(m, size) == PutAll([m.transferId, m.kind, m.mime]) + ToBe(size, 8) + m.data
  {
    assert [target][..0] == [] && [ShowBytes(secs)][..0] == [];
    PutTriple(m.transferId, m.kind, m.mime);
    PutFour(ShowBytes(secs), m.transferId, m.kind, m.mime);
  }
}
