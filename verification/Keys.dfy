/**
 The keys of the message store.

 Seven families of keys share one ordered tree. A `Slot` is what a key stands for; `Encode`
 lays it out as bytes. Different slots have different keys, and the keys of one
 conversation, and no others, lie between its two range bounds.
 */
module Keys {
  import opened Wrappers
  import opened Bytes

  const MSG_TAG: Key := [77, 83, 71, 47]                            // "MSG/"
  const MERGED_TAG: Key := [70, 77, 83, 71, 47]                     // "FMSG/"
  const PENDING_TAG: Key := [80, 69, 78, 68, 47]                    // "PEND/"
  const USER_TAG: Key := [85, 77, 83, 71, 47]                       // "UMSG/"
  const GROUP_TAG: Key := [71, 77, 83, 71, 47]                      // "GMSG/"
  const DM_TAG: Key := [68, 77, 47]                                 // "DM/"
  const SEQUENCE_TAG: Key := [83, 69, 81, 85, 69, 78, 67, 69, 47]   // "SEQUENCE/"

  /** A conversation that has its own index: a user's feed, a group, or a pair of users. */
  datatype Conversation = User(uid: I64) | Group(gid: I64) | Dm(low: I64, high: I64)

  datatype Slot =
    | Canonical(mid: I64)
    | Merged(mid: I64)
    | Pending(mid: I64)
    | Indexed(of: Conversation, mid: I64)
    | Sequence(ty: Byte)

  /** The index entry of a direct message is the same whichever of the two sent it. */
  function DmBetween(from: I64, to: I64): (c: Conversation)
    ensures c.Dm? && c.low <= c.high
    ensures {c.low, c.high} == {from, to}
  {
    Dm(if from < to then from else to, if from < to then to else from)
  }

  /** The bytes shared by every key of a conversation. */
  function Prefix(c: Conversation): Key {
    match c
    case User(uid) => USER_TAG + ToBytes(uid)
    case Group(gid) => GROUP_TAG + ToBytes(gid)
    case Dm(low, high) => DM_TAG + ToBytes(low) + ToBytes(high)
  }

  function Encode(s: Slot): Key {
    match s
    case Canonical(mid) => MSG_TAG + ToBytes(mid)
    case Merged(mid) => MERGED_TAG + ToBytes(mid)
    case Pending(mid) => PENDING_TAG + ToBytes(mid)
    case Indexed(c, mid) => Prefix(c) + ToBytes(mid)
    case Sequence(ty) => SEQUENCE_TAG + [ty]
  }

  // ---- decoding ----

  function StripPrefix(p: Key, k: Key): Option<Key> {
    if p <= k then Some(k[|p|..]) else None
  }

  /** Reads the message id and the owner out of an index key of the kind of `c`. */
  function DecodeIndexed(c: Conversation, k: Key): Option<(Conversation, I64)> {
    match c
    case User(_) =>
      (match DecodeOwned(USER_TAG, k)
       case None => None
       case Some(r) => Some((User(r.0), r.1)))
    case Group(_) =>
      (match DecodeOwned(GROUP_TAG, k)
       case None => None
       case Some(r) => Some((Group(r.0), r.1)))
    case Dm(_, _) =>
      (match DecodeDm(k)
       case None => None
       case Some(r) => Some((Dm(r.0, r.1), r.2)))
  }

  function DecodeOwned(tag: Key, k: Key): Option<(I64, I64)> {
    match StripPrefix(tag, k)
    case None => None
    case Some(d) =>
      if |d| != 16 then None else Some((FromBytes(d[0..8]), FromBytes(d[8..16])))
  }

  function DecodeDm(k: Key): Option<(I64, I64, I64)> {
    match StripPrefix(DM_TAG, k)
    case None => None
    case Some(d) =>
      if |d| != 24 then None
      else Some((FromBytes(d[0..8]), FromBytes(d[8..16]), FromBytes(d[16..24])))
  }

  function DecodePending(k: Key): Option<I64> {
    match StripPrefix(PENDING_TAG, k)
    case None => None
    case Some(d) => if |d| != 8 then None else Some(FromBytes(d))
  }

  lemma StripConcat(p: Key, x: Key)
    ensures StripPrefix(p, p + x) == Some(x)
  {
    assert (p + x)[|p|..] == x;
  }

  lemma Halves(x: Key, y: Key)
    requires |x| == |y| == 8
    ensures (x + y)[0..8] == x && (x + y)[8..16] == y
  {
  }

  lemma Thirds(x: Key, y: Key, z: Key)
    requires |x| == |y| == |z| == 8
    ensures (x + y + z)[0..8] == x && (x + y + z)[8..16] == y && (x + y + z)[16..24] == z
  {
  }

  lemma DecodeOwnedEncoded(tag: Key, owner: I64, mid: I64)
    ensures DecodeOwned(tag, tag + ToBytes(owner) + ToBytes(mid)) == Some((owner, mid))
  {
    hide ToBytes, FromBytes;
    BytesRoundTrip(owner);
    BytesRoundTrip(mid);
    var d := ToBytes(owner) + ToBytes(mid);
    assert tag + ToBytes(owner) + ToBytes(mid) == tag + d;
    StripConcat(tag, d);
    Halves(ToBytes(owner), ToBytes(mid));
  }

  lemma DecodeDmEncoded(low: I64, high: I64, mid: I64)
    ensures DecodeDm(DM_TAG + ToBytes(low) + ToBytes(high) + ToBytes(mid)) == Some((low, high, mid))
  {
    hide ToBytes, FromBytes;
    BytesRoundTrip(low);
    BytesRoundTrip(high);
    BytesRoundTrip(mid);
    var d := ToBytes(low) + ToBytes(high) + ToBytes(mid);
    assert DM_TAG + ToBytes(low) + ToBytes(high) + ToBytes(mid) == DM_TAG + d;
    StripConcat(DM_TAG, d);
    Thirds(ToBytes(low), ToBytes(high), ToBytes(mid));
  }

  lemma DecodeIndexedEncoded(c: Conversation, mid: I64)
    ensures DecodeIndexed(c, Encode(Indexed(c, mid))) == Some((c, mid))
  {
    match c
    case User(uid) => DecodeOwnedEncoded(USER_TAG, uid, mid);
    case Group(gid) => DecodeOwnedEncoded(GROUP_TAG, gid, mid);
    case Dm(low, high) => DecodeDmEncoded(low, high, mid);
  }

  lemma DecodePendingEncoded(mid: I64)
    ensures DecodePending(Encode(Pending(mid))) == Some(mid)
  {
    BytesRoundTrip(mid);
    StripConcat(PENDING_TAG, ToBytes(mid));
  }

  // ---- no two slots share a key ----

  /** The first byte of a key tells its family. */
  function FirstByte(s: Slot): (b: Byte)
    ensures Encode(s) != [] && Encode(s)[0] == b
  {
    match s
    case Canonical(_) => 77
    case Merged(_) => 70
    case Pending(_) => 80
    case Indexed(User(_), _) => 85
    case Indexed(Group(_), _) => 71
    case Indexed(Dm(_, _), _) => 68
    case Sequence(_) => 83
  }

  lemma TailInjective(tag: Key, x: I64, y: I64)
    requires tag + ToBytes(x) == tag + ToBytes(y)
    ensures x == y
  {
    StripConcat(tag, ToBytes(x));
    StripConcat(tag, ToBytes(y));
    BytesRoundTrip(x);
    BytesRoundTrip(y);
  }

  lemma EncodeInjective(s: Slot, t: Slot)
    requires Encode(s) == Encode(t)
    ensures s == t
  {
    hide ToBytes;
    assert FirstByte(s) == FirstByte(t);
    match s
    case Canonical(mid) => TailInjective(MSG_TAG, mid, t.mid);
    case Merged(mid) => TailInjective(MERGED_TAG, mid, t.mid);
    case Pending(mid) => TailInjective(PENDING_TAG, mid, t.mid);
    case Indexed(c, mid) =>
      DecodeIndexedEncoded(c, mid);
      DecodeIndexedEncoded(t.of, t.mid);
    case Sequence(ty) =>
      StripConcat(SEQUENCE_TAG, [ty]);
      StripConcat(SEQUENCE_TAG, [t.ty]);
  }

  /** What a stored key stands for. */
  ghost function SlotOf(k: Key): (s: Option<Slot>)
    ensures s.Some? ==> Encode(s.value) == k
  {
    if exists t :: Encode(t) == k then
      var t :| Encode(t) == k;
      Some(t)
    else None
  }

  lemma SlotOfEncoded(s: Slot)
    ensures SlotOf(Encode(s)) == Some(s)
  {
    hide Encode;
    EncodeInjective(s, SlotOf(Encode(s)).value);
  }

  // ---- what a range scan can see ----

  /** Whether a slot belongs to conversation `c` with an id, read as 64 bits, in `lo..hi`. */
  predicate InWindow(s: Slot, c: Conversation, lo: I64, hi: I64) {
    s.Indexed? && s.of == c && Bits(lo) <= Bits(s.mid) < Bits(hi)
  }

  lemma PrefixLength(c: Conversation)
    ensures |Prefix(c)| == if c.Dm? then 19 else 13
  {
  }

  /** An encoded slot that extends the prefix of a conversation belongs to that conversation. */
  lemma PrefixOwns(s: Slot, c: Conversation)
    requires Prefix(c) <= Encode(s)
    ensures s.Indexed? && s.of == c
  {
    hide ToBytes;
    assert Prefix(c)[0] == FirstByte(Indexed(c, 0));
    assert FirstByte(s) == Encode(s)[0] == Prefix(c)[0];
    assert s.Indexed?;
    PrefixLength(c);
    PrefixLength(s.of);
    assert Encode(s) == Prefix(s.of) + ToBytes(s.mid);
    assert Prefix(s.of) == Encode(s)[..|Prefix(c)|] == Prefix(c);
    assert Encode(Indexed(c, s.mid)) == Encode(s);
    EncodeInjective(Indexed(c, s.mid), s);
  }

  lemma ScanSeesConversation(s: Slot, c: Conversation, lo: I64, hi: I64)
    ensures Within(Encode(s), Encode(Indexed(c, lo)), Encode(Indexed(c, hi))) <==> InWindow(s, c, lo, hi)
  {
    hide ToBytes, Prefix, Less, Bits;
    var p, k := Prefix(c), Encode(s);
    assert s.Indexed? && s.of == c ==> k == p + ToBytes(s.mid);
    WithinPrefix(p, ToBytes(lo), ToBytes(hi), k);
    if p <= k {
      PrefixOwns(s, c);
      StripConcat(p, ToBytes(s.mid));
      BytesOrder(lo, s.mid);
      BytesOrder(s.mid, hi);
      SameBytes(lo, s.mid);
    }
  }

  lemma SameBytes(x: I64, y: I64)
    ensures ToBytes(x) == ToBytes(y) <==> Bits(x) == Bits(y)
  {
    BytesRoundTrip(x);
    BytesRoundTrip(y);
  }

  /** Within one conversation the key order is the id order. */
  lemma ConversationOrder(c: Conversation, x: I64, y: I64)
    ensures Less(Encode(Indexed(c, x)), Encode(Indexed(c, y))) <==> Bits(x) < Bits(y)
  {
    LessAfterPrefix(Prefix(c), ToBytes(x), ToBytes(y));
    BytesOrder(x, y);
  }

  lemma {:induction false} LessAfterPrefix(p: Key, x: Key, y: Key)
    ensures Less(p + x, p + y) <==> Less(x, y)
  {
    if p == [] {
      assert p + x == x && p + y == y;
    } else {
      assert p + x == [p[0]] + (p[1..] + x) && p + y == [p[0]] + (p[1..] + y);
      assert (p + x)[1..] == p[1..] + x && (p + y)[1..] == p[1..] + y;
      LessAfterPrefix(p[1..], x, y);
    }
  }

  // ---- the value of a pending marker ----

  datatype Marker = Marker(sender: I64, target: I64, createdAt: I64)

  function MarkerValue(m: Marker): Key {
    ToBytes(m.sender) + ToBytes(m.target) + ToBytes(m.createdAt)
  }

  function DecodeMarker(d: Key): Option<Marker> {
    if |d| != 24 then None
    else Some(Marker(FromBytes(d[0..8]), FromBytes(d[8..16]), FromBytes(d[16..24])))
  }

  lemma MarkerRoundTrip(m: Marker)
    ensures DecodeMarker(MarkerValue(m)) == Some(m)
  {
    hide ToBytes, FromBytes;
    BytesRoundTrip(m.sender);
    BytesRoundTrip(m.target);
    BytesRoundTrip(m.createdAt);
    Thirds(ToBytes(m.sender), ToBytes(m.target), ToBytes(m.createdAt));
  }

  /** A prefix scan of the marker family meets exactly the markers. */
  lemma PendingFamily(s: Slot)
    ensures PENDING_TAG <= Encode(s) <==> s.Pending?
  {
    if PENDING_TAG <= Encode(s) {
      assert FirstByte(s) == Encode(s)[0] == PENDING_TAG[0];
    }
  }

  /** The text of a tag. */
  predicate Spells(tag: Key, text: string) {
    |tag| == |text| && forall i :: 0 <= i < |tag| ==> tag[i] == text[i] as int
  }

  /** The bytes at `at` are a 64-bit number, most significant byte first. */
  predicate NumberAt(k: Key, at: nat, x: I64) {
    at + 8 <= |k| && FromBytes(k[at..at + 8]) == x
  }

  /** How a key is laid out: the name of its family, then its numbers, the message id last. */
  lemma KeyLayout(s: Slot)
    ensures var k := Encode(s);
      match s
      case Canonical(mid) => |k| == 12 && Spells(k[..4], "MSG/") && NumberAt(k, 4, mid)
      case Merged(mid) => |k| == 13 && Spells(k[..5], "FMSG/") && NumberAt(k, 5, mid)
      case Pending(mid) => |k| == 13 && Spells(k[..5], "PEND/") && NumberAt(k, 5, mid)
      case Indexed(User(uid), mid) =>
        |k| == 21 && Spells(k[..5], "UMSG/") && NumberAt(k, 5, uid) && NumberAt(k, 13, mid)
      case Indexed(Group(gid), mid) =>
        |k| == 21 && Spells(k[..5], "GMSG/") && NumberAt(k, 5, gid) && NumberAt(k, 13, mid)
      case Indexed(Dm(low, high), mid) =>
        |k| == 27 && Spells(k[..3], "DM/") && NumberAt(k, 3, low) && NumberAt(k, 11, high) && NumberAt(k, 19, mid)
      case Sequence(ty) => |k| == 10 && Spells(k[..9], "SEQUENCE/") && k[9] == ty
  {
    hide ToBytes, FromBytes;
    match s
    case Canonical(mid) => PartAt(MSG_TAG, mid, []);
    case Merged(mid) => PartAt(MERGED_TAG, mid, []);
    case Pending(mid) => PartAt(PENDING_TAG, mid, []);
    case Indexed(User(uid), mid) => TwoParts(USER_TAG, uid, mid);
    case Indexed(Group(gid), mid) => TwoParts(GROUP_TAG, gid, mid);
    case Indexed(Dm(low, high), mid) =>
      PartAt(DM_TAG, low, ToBytes(high) + ToBytes(mid));
      assert DM_TAG + ToBytes(low) + ToBytes(high) + ToBytes(mid) ==
        DM_TAG + ToBytes(low) + (ToBytes(high) + ToBytes(mid));
      TwoParts(DM_TAG + ToBytes(low), high, mid);
    case Sequence(ty) => assert (SEQUENCE_TAG + [ty])[..9] == SEQUENCE_TAG;
  }

  lemma PartAt(tag: Key, x: I64, rest: Key)
    ensures var k := tag + ToBytes(x) + rest;
      k[..|tag|] == tag && NumberAt(k, |tag|, x) && tag + ToBytes(x) + [] == tag + ToBytes(x)
  {
    BytesRoundTrip(x);
    var k := tag + ToBytes(x) + rest;
    assert k[|tag|..|tag| + 8] == ToBytes(x);
  }

  lemma TwoParts(tag: Key, x: I64, y: I64)
    ensures var k := tag + ToBytes(x) + ToBytes(y);
      k[..|tag|] == tag && NumberAt(k, |tag|, x) && NumberAt(k, |tag| + 8, y)
  {
    PartAt(tag, x, ToBytes(y));
    PartAt(tag + ToBytes(x), y, []);
  }

  /** The value of a marker: sender, target and time, one after the other. */
  lemma MarkerLayout(m: Marker)
    ensures var v := MarkerValue(m);
      |v| == 24 && NumberAt(v, 0, m.sender) && NumberAt(v, 8, m.target) && NumberAt(v, 16, m.createdAt)
  {
    MarkerRoundTrip(m);
    hide ToBytes, FromBytes;
  }
}
