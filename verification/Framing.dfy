/**
 The wire format of the servers (TCPConnectionSecurity.cpp): a frame is the length of the payload, an
 8-byte field with the protocol name, the number of the instruction, and the payload; bytes are
 written and read one at a time. For every frame the receiver rebuilds the tables of the factory
 (TransferableFactory.cpp) for the protocol the frame names.
 */
module Framing {
  import opened Bytes
  import opened Options

  type Name = seq<byte>

  // ---------- integers in memory ----------

  const INT_RANGE := 0x1_0000_0000
  const INT_MAX := 0x7FFF_FFFF

  /** The value range of a 32-bit int. */
  predicate IsInt(n: int) {
    -INT_MAX - 1 <= n <= INT_MAX
  }

  /** memcpy of a 32-bit int, the low byte first. */
  function EncodeInt(n: int): (b: seq<byte>)
    ensures |b| == 4
  {
    [n % 256, n / 256 % 256, n / 0x1_0000 % 256, n / 0x100_0000 % 256]
  }

  function DecodeInt(b: seq<byte>): int
    requires |b| == 4
  {
    var u: int := b[0] as int + 256 * (b[1] as int) + 0x1_0000 * (b[2] as int) + 0x100_0000 * (b[3] as int);
    if u <= INT_MAX then u else u - INT_RANGE
  }

  lemma IntRoundTrip(n: int)
    requires IsInt(n)
    ensures DecodeInt(EncodeInt(n)) == n
  {
    var q1 := n / 256;
    var q2, q3 := q1 / 256, q1 / 256 / 256;
    assert n == 256 * q1 + n % 256 && q1 == 256 * q2 + q1 % 256 && q2 == 256 * q3 + q2 % 256;
    assert n / 0x1_0000 == q2 && n / 0x100_0000 == q3;
    assert -128 <= q3 < 128;
  }

  // ---------- the factory ----------

  /** What a profile offers for one protocol: creators by instruction number, numbers by class name. */
  datatype Offer = Offer(creators: seq<(int, nat)>, ids: seq<(string, int)>)

  /** The answers of `getCreators` and `getCreatorIds` to a protocol name; None is the exception they may throw. */
  type Profile = Name -> Option<Offer>

  /** What both functions do unless a profile overrides them: they never look at the name. */
  ghost predicate Uniform(profile: Profile, offer: Offer) {
    forall name: Name :: profile(name) == Some(offer)
  }

  /** `std::map::insert` of each pair in turn: the first entry of a key stays. */
  function Inserted<K, V>(m: map<K, V>, pairs: seq<(K, V)>, n: nat): map<K, V>
    requires n <= |pairs|
  {
    if n == 0 then m
    else
      var before := Inserted(m, pairs, n - 1);
      if pairs[n - 1].0 in before then before else before[pairs[n - 1].0 := pairs[n - 1].1]
  }

  function TableOf<K, V>(pairs: seq<(K, V)>): map<K, V> {
    Inserted(map[], pairs, |pairs|)
  }

  lemma {:induction false} InsertedKeys<K, V>(m: map<K, V>, pairs: seq<(K, V)>, n: nat)
    requires n <= |pairs|
    ensures forall k :: k in Inserted(m, pairs, n) <==> k in m || exists i :: 0 <= i < n && pairs[i].0 == k
  {
    if n > 0 {
      InsertedKeys(m, pairs, n - 1);
      var last := pairs[n - 1].0;
      assert forall i :: 0 <= i < n - 1 ==> pairs[i].0 in Inserted(m, pairs, n - 1);
      forall k ensures k in Inserted(m, pairs, n) <==> k in m || exists i :: 0 <= i < n && pairs[i].0 == k {
        if k == last {
          assert pairs[n - 1].0 == k;
        }
      }
    }
  }

  /** No earlier pair has the key of pair i. */
  ghost predicate First<K, V>(pairs: seq<(K, V)>, i: nat) {
    i < |pairs| && forall j :: 0 <= j < i ==> pairs[j].0 != pairs[i].0
  }

  lemma {:induction false} InsertedOnce<K, V>(pairs: seq<(K, V)>, n: nat, i: nat)
    requires n <= |pairs| && First(pairs, i) && i < n
    ensures pairs[i].0 in Inserted(map[], pairs, n) && Inserted(map[], pairs, n)[pairs[i].0] == pairs[i].1
  {
    InsertedKeys(map[], pairs, i);
    if i < n - 1 {
      InsertedOnce(pairs, n - 1, i);
    }
  }

  lemma {:induction false} InsertedFrom<K, V>(pairs: seq<(K, V)>, n: nat, k: K)
    requires n <= |pairs| && k in Inserted(map[], pairs, n)
    ensures exists i :: 0 <= i < |pairs| && pairs[i].0 == k
  {
    if k != pairs[n - 1].0 {
      InsertedFrom(pairs, n - 1, k);
    }
  }

  /** The table has the keys of the pairs, each with the value of the first pair that has it. */
  ghost predicate IsTable<K, V>(table: map<K, V>, pairs: seq<(K, V)>) {
    && (forall i: nat :: First(pairs, i) ==> pairs[i].0 in table && table[pairs[i].0] == pairs[i].1)
    && (forall k :: k in table ==> exists i :: 0 <= i < |pairs| && pairs[i].0 == k)
  }

  lemma TableOfIsTable<K, V>(pairs: seq<(K, V)>)
    ensures IsTable(TableOf(pairs), pairs)
  {
    forall k | k in TableOf(pairs) ensures exists i :: 0 <= i < |pairs| && pairs[i].0 == k {
      InsertedFrom(pairs, |pairs|, k);
    }
    forall i: nat | First(pairs, i)
      ensures pairs[i].0 in TableOf(pairs) && TableOf(pairs)[pairs[i].0] == pairs[i].1
    {
      InsertedOnce(pairs, |pairs|, i);
    }
  }

  datatype Factory = Factory(version: Name, creators: map<int, nat>, sendingType: map<string, int>)

  const NO_PROTOCOL: Name := [110, 111, 110, 101] // "none"

  const Cleared := Factory(NO_PROTOCOL, map[], map[])

  /** The tables for a protocol name; None if the profile throws. */
  function Loaded(profile: Profile, version: Name): Option<Factory> {
    if version == NO_PROTOCOL then Some(Cleared)
    else
      match profile(version)
      case None => None
      case Some(offer) => Some(Factory(version, TableOf(offer.creators), TableOf(offer.ids)))
  }

  /** `creator`: None is the exception. */
  function CreatorOf(g: Factory, kind: int): Option<nat> {
    if g.version == NO_PROTOCOL || kind !in g.creators then None else Some(g.creators[kind])
  }

  /** `type`: None is the exception. */
  function NumberOf(g: Factory, name: string): Option<int> {
    if g.version == NO_PROTOCOL || name !in g.sendingType then None else Some(g.sendingType[name])
  }

  /** The tables are those of an offer. */
  ghost predicate LooksUp(g: Factory, offer: Offer) {
    g.version != NO_PROTOCOL && IsTable(g.creators, offer.creators) && IsTable(g.sendingType, offer.ids)
  }

  /** Then a lookup finds the first entry of its key, and nothing if there is none. */
  lemma LookupsAnswer(g: Factory, offer: Offer, i: nat, kind: int, name: string)
    requires LooksUp(g, offer)
    ensures First(offer.creators, i) ==> CreatorOf(g, offer.creators[i].0) == Some(offer.creators[i].1)
    ensures First(offer.ids, i) ==> NumberOf(g, offer.ids[i].0) == Some(offer.ids[i].1)
    ensures CreatorOf(g, kind).Some? ==> exists j :: 0 <= j < |offer.creators| && offer.creators[j].0 == kind
    ensures NumberOf(g, name).Some? ==> exists j :: 0 <= j < |offer.ids| && offer.ids[j].0 == name
  {
  }

  lemma LoadedLooksUp(profile: Profile, name: Name)
    requires name != NO_PROTOCOL && profile(name).Some?
    ensures Loaded(profile, name).Some? && LooksUp(Loaded(profile, name).value, profile(name).value)
  {
    TableOfIsTable(profile(name).value.creators);
    TableOfIsTable(profile(name).value.ids);
  }

  class TransferableFactory {
    const profile: Profile
    var version: Name
    var creators: map<int, nat>
    var sendingType: map<string, int>

    ghost function View(): Factory
      reads this
    {
      Factory(version, creators, sendingType)
    }

    constructor (profile: Profile)
      ensures this.profile == profile && View() == Cleared
    {
      this.profile, version, creators, sendingType := profile, NO_PROTOCOL, map[], map[];
    }

    method Clear()
      modifies this
      ensures View() == Cleared
    {
      version, creators, sendingType := NO_PROTOCOL, map[], map[];
    }

    /** `setProtocol`: whatever was loaded before, the tables afterwards depend on the name alone. */
    method SetProtocol(name: Name) returns (ok: bool)
      modifies this
      ensures ok == Loaded(profile, name).Some?
      ensures View() == if ok then Loaded(profile, name).value else Cleared
      ensures name != NO_PROTOCOL ==> ok == profile(name).Some? && version == if ok then name else NO_PROTOCOL
      ensures ok && name != NO_PROTOCOL ==> LooksUp(View(), profile(name).value)
    {
      Clear();
      if name != NO_PROTOCOL {
        if profile(name).None? {
          return false;
        }
        var offer := profile(name).value;
        for i := 0 to |offer.creators|
          invariant creators == Inserted(map[], offer.creators, i) && sendingType == map[] && version == NO_PROTOCOL
        {
          if offer.creators[i].0 !in creators {
            creators := creators[offer.creators[i].0 := offer.creators[i].1];
          }
        }
        for i := 0 to |offer.ids|
          invariant creators == TableOf(offer.creators) && sendingType == Inserted(map[], offer.ids, i)
          invariant version == NO_PROTOCOL
        {
          if offer.ids[i].0 !in sendingType {
            sendingType := sendingType[offer.ids[i].0 := offer.ids[i].1];
          }
        }
        version := name;
        LoadedLooksUp(profile, name);
      }
      return true;
    }

    function Creator(kind: int): Option<nat>
      reads this
    {
      CreatorOf(Factory(version, creators, sendingType), kind)
    }

    function Type(name: string): Option<int>
      reads this
    {
      NumberOf(Factory(version, creators, sendingType), name)
    }
  }

  /** The instruction number is one the protocol can create. */
  predicate Known(profile: Profile, name: Name, kind: int) {
    Loaded(profile, name).Some? && name != NO_PROTOCOL && kind in Loaded(profile, name).value.creators
  }

  /** That is so exactly when the profile offers a creator for it. */
  lemma KnownExactlyWhen(profile: Profile, name: Name, kind: int)
    ensures Known(profile, name, kind)
       <==> name != NO_PROTOCOL && profile(name).Some? && exists p :: p in profile(name).value.creators && p.0 == kind
  {
    if name != NO_PROTOCOL && profile(name).Some? {
      var pairs := profile(name).value.creators;
      InsertedKeys(map[], pairs, |pairs|);
      assert forall i :: 0 <= i < |pairs| ==> pairs[i] in pairs;
    }
  }

  // ---------- frames ----------

  datatype Message = Message(kind: int, payload: seq<byte>)

  /** A message to be sent under a protocol name; `after` is what follows that name in memory. */
  datatype Framed = Framed(m: Message, name: Name, after: seq<byte>)

  const HEADER := 16

  /** The sender takes names of up to 8 bytes; of a shorter one it copies the terminating 0 and what follows. */
  predicate Fits(name: Name, after: seq<byte>) {
    |name| <= 8 && (|name| < 8 ==> |after| == 7 - |name|)
  }

  /** The 8 bytes at the protocol name's address. */
  function Field(name: Name, after: seq<byte>): (field: seq<byte>)
    requires Fits(name, after)
    ensures |field| == 8
  {
    if |name| == 8 then name else name + [0] + after
  }

  /** What a sender copies into a frame. */
  type Packet = f: Framed | Fits(f.name, f.after) witness Framed(Message(0, []), [], [0, 0, 0, 0, 0, 0, 0])

  function Frame(f: Packet): seq<byte> {
    EncodeInt(|f.m.payload|) + Field(f.name, f.after) + EncodeInt(f.m.kind) + f.m.payload
  }

  function Size(f: Packet): nat {
    HEADER + |f.m.payload|
  }

  /** A string up to its terminating 0; None if there is none to be found. */
  function CString(b: seq<byte>): Option<Name> {
    if b == [] then None
    else if b[0] == 0 then Some([])
    else if CString(b[1..]).None? then None
    else Some([b[0]] + CString(b[1..]).value)
  }

  lemma {:induction false} CStringOfName(name: Name, after: seq<byte>)
    requires 0 !in name
    ensures CString(name + [0] + after) == Some(name)
  {
    if name != [] {
      CStringOfName(name[1..], after);
      assert (name + [0] + after)[1..] == name[1..] + [0] + after;
      assert [name[0]] + name[1..] == name;
    } else {
      assert name + [0] + after == [0] + after;
    }
  }

  lemma {:induction false} NoTerminator(b: seq<byte>)
    requires 0 !in b
    ensures CString(b) == None
  {
    if b != [] {
      NoTerminator(b[1..]);
    }
  }

  /** The name reads back from its field exactly when it leaves room for the terminating 0. */
  lemma CStringOfField(name: Name, after: seq<byte>)
    requires Fits(name, after) && 0 !in name
    ensures CString(Field(name, after)) == if |name| < 8 then Some(name) else None
  {
    if |name| < 8 {
      CStringOfName(name, after);
    } else {
      NoTerminator(name);
    }
  }

  // ---------- receiving ----------

  /**
   One call of the receive loop: a message and the bytes it took; an instruction nobody knows, given up
   after the header; the end of the stream; or a step whose effect the language does not define.
   */
  datatype Outcome = Delivered(m: Message, used: nat) | Rejected(used: nat) | Closed | Undefined

  datatype Header = Header(size: int, name: Option<Name>, kind: int)

  function ReadHeader(h: seq<byte>): Header
    requires |h| == HEADER
  {
    Header(DecodeInt(h[..4]), CString(h[4..12]), DecodeInt(h[12..16]))
  }

  /** What becomes of a frame once its header is read. */
  datatype Verdict = Accepted | UnknownKind | NoMeaning

  function Judge(profile: Profile, h: Header): Verdict {
    if h.name.None? || Loaded(profile, h.name.value).None? then NoMeaning
    else if !Known(profile, h.name.value, h.kind) then UnknownKind
    else if h.size < 0 then NoMeaning
    else Accepted
  }

  /** What becomes of a frame, given the bytes after its header. */
  function PayloadOutcome(h: Header, verdict: Verdict, s: seq<byte>): (o: Outcome)
    requires verdict.Accepted? ==> h.size >= 0
    ensures o.Delivered? ==> o.used <= HEADER + |s|
  {
    match verdict
    case NoMeaning => Undefined
    case UnknownKind => Rejected(HEADER)
    case Accepted => if |s| < h.size then Closed else Delivered(Message(h.kind, s[..h.size]), HEADER + h.size)
  }

  function ReceiveOne(profile: Profile, s: seq<byte>): (o: Outcome)
    ensures o.Delivered? || o.Rejected? ==> HEADER <= o.used <= |s|
  {
    if |s| < HEADER then Closed
    else
      var h := ReadHeader(s[..HEADER]);
      PayloadOutcome(h, Judge(profile, h), s[HEADER..])
  }

  /** The receive loop: the messages delivered and the bytes that whole messages took. */
  function ReceiveAll(profile: Profile, s: seq<byte>): (seq<Message>, nat)
    decreases |s|
  {
    match ReceiveOne(profile, s)
    case Delivered(m, used) =>
      var (ms, more) := ReceiveAll(profile, s[used..]);
      ([m] + ms, used + more)
    case Rejected(used) =>
      var (ms, more) := ReceiveAll(profile, s[used..]);
      (ms, used + more)
    case _ => ([], 0)
  }

  // ---------- the tables of the factory ----------

  /** The tables of a protocol, empty if the profile does not offer it. */
  function TablesNamed(profile: Profile, name: Name): Factory {
    if Loaded(profile, name).None? then Cleared else Loaded(profile, name).value
  }

  /** The tables after a header. */
  function TablesFor(profile: Profile, g: Factory, h: Header): Factory {
    if h.name.None? then g else TablesNamed(profile, h.name.value)
  }

  /** The tables after one call of the receive loop. */
  function TablesAfter(profile: Profile, g: Factory, s: seq<byte>): Factory {
    if |s| < HEADER then g else TablesFor(profile, g, ReadHeader(s[..HEADER]))
  }

  /** The tables after the receive loop. */
  function TablesAfterAll(profile: Profile, g: Factory, s: seq<byte>): Factory
    decreases |s|
  {
    var g' := TablesAfter(profile, g, s);
    match ReceiveOne(profile, s)
    case Delivered(_, used) => TablesAfterAll(profile, g', s[used..])
    case Rejected(used) => TablesAfterAll(profile, g', s[used..])
    case _ => g'
  }

  /** The tables are those of the protocol they name. */
  predicate Genuine(profile: Profile, g: Factory) {
    Loaded(profile, g.version) == Some(g)
  }

  // ---------- single frames ----------

  /** What a sender can put in a frame: a C string for a name, and lengths that fit an int. */
  predicate Framable(f: Packet) {
    && 0 !in f.name
    && IsInt(f.m.kind) && |f.m.payload| <= INT_MAX - HEADER
  }

  /** A frame that the receiver can read back: there is room for the 0, and the instruction is known. */
  predicate Sendable(profile: Profile, f: Packet) {
    Framable(f) && |f.name| < 8 && Known(profile, f.name, f.m.kind)
  }

  lemma Parts(a: seq<byte>, b: seq<byte>, c: seq<byte>, d: seq<byte>, rest: seq<byte>)
    requires |a| == 4 && |b| == 8 && |c| == 4
    ensures var s := a + b + c + d + rest;
            && s[..HEADER][..4] == a && s[..HEADER][4..12] == b && s[..HEADER][12..16] == c
            && s[HEADER..HEADER + |d|] == d && s[HEADER + |d|..] == rest
  {
    var s, h := a + b + c + d + rest, a + b + c;
    assert s[..HEADER] == h;
    assert h[..4] == a && h[4..12] == b && h[12..16] == c;
  }

  lemma HeaderOf(f: Packet, rest: seq<byte>)
    requires Framable(f)
    ensures var s := Frame(f) + rest;
            && |Frame(f)| == Size(f)
            && ReadHeader(s[..HEADER]) == Header(|f.m.payload|, if |f.name| < 8 then Some(f.name) else None, f.m.kind)
            && s[HEADER..Size(f)] == f.m.payload && s[Size(f)..] == rest
  {
    var field := Field(f.name, f.after);
    Parts(EncodeInt(|f.m.payload|), field, EncodeInt(f.m.kind), f.m.payload, rest);
    IntRoundTrip(|f.m.payload|);
    IntRoundTrip(f.m.kind);
    CStringOfField(f.name, f.after);
  }

  /**
   A frame is delivered as its message, and takes exactly its bytes, exactly when its name is shorter
   than 8 bytes and the instruction is known. A name of 8 bytes, which the sender accepts, is never read back.
   */
  lemma FrameDeliveredExactlyWhen(profile: Profile, f: Packet, rest: seq<byte>)
    requires Framable(f)
    ensures ReceiveOne(profile, Frame(f) + rest) == Delivered(f.m, Size(f))
       <==> |f.name| < 8 && Known(profile, f.name, f.m.kind)
  {
    HeaderOf(f, rest);
  }

  lemma FrameTables(profile: Profile, g: Factory, f: Packet, rest: seq<byte>)
    requires Framable(f)
    ensures TablesAfter(profile, g, Frame(f) + rest) == if |f.name| < 8 then TablesNamed(profile, f.name) else g
  {
    HeaderOf(f, rest);
  }

  /**
   A frame leaves the tables and the protocol name, which senders put on their frames, as they are
   exactly when it names the loaded protocol.
   */
  lemma FrameKeepsTablesExactlyWhen(profile: Profile, g: Factory, f: Packet, rest: seq<byte>)
    requires Framable(f) && |f.name| < 8 && Genuine(profile, g)
    ensures TablesAfter(profile, g, Frame(f) + rest) == g
       <==> f.name == g.version || (Loaded(profile, f.name).None? && g.version == NO_PROTOCOL)
  {
    FrameTables(profile, g, f, rest);
  }

  // ---------- lookups ----------

  ghost predicate SameLookups(g: Factory, g': Factory) {
    && (forall kind :: CreatorOf(g, kind) == CreatorOf(g', kind))
    && (forall name :: NumberOf(g, name) == NumberOf(g', name))
  }

  lemma SameTablesSameLookups(g: Factory, g': Factory)
    requires g.version != NO_PROTOCOL && g'.version != NO_PROTOCOL
    ensures SameLookups(g, g') <==> g.creators == g'.creators && g.sendingType == g'.sendingType
  {
    if SameLookups(g, g') {
      forall kind ensures kind in g.creators <==> kind in g'.creators {
        assert CreatorOf(g, kind) == CreatorOf(g', kind);
      }
      forall kind | kind in g.creators ensures g.creators[kind] == g'.creators[kind] {
        assert CreatorOf(g, kind) == CreatorOf(g', kind);
      }
      forall name ensures name in g.sendingType <==> name in g'.sendingType {
        assert NumberOf(g, name) == NumberOf(g', name);
      }
      forall name | name in g.sendingType ensures g.sendingType[name] == g'.sendingType[name] {
        assert NumberOf(g, name) == NumberOf(g', name);
      }
    }
  }

  /** Two offers fill the same tables. */
  predicate SameEntries(a: Offer, b: Offer) {
    TableOf(a.creators) == TableOf(b.creators) && TableOf(a.ids) == TableOf(b.ids)
  }

  /**
   Whatever the profile: a frame under a name that it offers keeps the lookups exactly when that offer
   fills the same tables as the one that is loaded.
   */
  lemma FrameKeepsLookupsOfOffers(profile: Profile, g: Factory, f: Packet, rest: seq<byte>)
    requires Framable(f) && |f.name| < 8 && f.name != NO_PROTOCOL && profile(f.name).Some?
    requires Genuine(profile, g) && g.version != NO_PROTOCOL
    ensures profile(g.version).Some?
    ensures SameLookups(TablesAfter(profile, g, Frame(f) + rest), g)
       <==> SameEntries(profile(f.name).value, profile(g.version).value)
  {
    FrameTables(profile, g, f, rest);
    SameTablesSameLookups(TablesNamed(profile, f.name), g);
  }

  lemma AnyNameSameLookups(profile: Profile, offer: Offer, g: Factory, name: Name)
    requires Uniform(profile, offer) && Genuine(profile, g) && g.version != NO_PROTOCOL
    requires name != NO_PROTOCOL
    ensures SameLookups(TablesNamed(profile, name), g)
  {
    SameTablesSameLookups(TablesNamed(profile, name), g);
  }

  /** An offer with an entry answers some lookup. */
  lemma OfferIsSeen(profile: Profile, offer: Offer, g: Factory)
    requires Uniform(profile, offer) && Genuine(profile, g) && g.version != NO_PROTOCOL
    requires offer.creators != [] || offer.ids != []
    ensures !SameLookups(Cleared, g)
  {
    InsertedKeys(map[], offer.creators, |offer.creators|);
    InsertedKeys(map[], offer.ids, |offer.ids|);
    if offer.creators != [] {
      assert CreatorOf(g, offer.creators[0].0).Some?;
    } else {
      assert NumberOf(g, offer.ids[0].0).Some?;
    }
  }

  /** With a profile that does not look at the name, a frame keeps every lookup exactly when it does not name "none". */
  lemma FrameKeepsLookupsExactlyWhen(profile: Profile, offer: Offer, g: Factory, f: Packet, rest: seq<byte>)
    requires Uniform(profile, offer) && (offer.creators != [] || offer.ids != [])
    requires Genuine(profile, g) && g.version != NO_PROTOCOL
    requires Framable(f) && |f.name| < 8
    ensures SameLookups(TablesAfter(profile, g, Frame(f) + rest), g) <==> f.name != NO_PROTOCOL
  {
    if f.name == NO_PROTOCOL {
      FrameTables(profile, g, f, rest);
      OfferIsSeen(profile, offer, g);
    } else {
      FrameTables(profile, g, f, rest);
      AnyNameSameLookups(profile, offer, g, f.name);
    }
  }

  /** After a frame that names "none" no class has a number, so nothing can be sent. */
  lemma FrameNamingNone(profile: Profile, g: Factory, f: Packet, rest: seq<byte>)
    requires Framable(f) && f.name == NO_PROTOCOL
    ensures TablesAfter(profile, g, Frame(f) + rest) == Cleared
    ensures ReceiveOne(profile, Frame(f) + rest) == Rejected(HEADER)
  {
    HeaderOf(f, rest);
  }

  /** A frame that names a known protocol but an unknown instruction is given up after its header. */
  lemma FrameRejectedExactlyWhen(profile: Profile, f: Packet, rest: seq<byte>)
    requires Framable(f)
    ensures ReceiveOne(profile, Frame(f) + rest) == Rejected(HEADER)
       <==> |f.name| < 8 && Loaded(profile, f.name).Some? && !Known(profile, f.name, f.m.kind)
  {
    HeaderOf(f, rest);
  }

  /** Its payload stays in the stream and is taken for the start of the next frame. */
  lemma RejectedPayloadIsReadOn(profile: Profile, f: Packet, rest: seq<byte>)
    requires Framable(f) && |f.name| < 8 && Loaded(profile, f.name).Some? && !Known(profile, f.name, f.m.kind)
    ensures ReceiveAll(profile, Frame(f) + rest).0 == ReceiveAll(profile, f.m.payload + rest).0
  {
    FrameRejectedExactlyWhen(profile, f, rest);
    AfterHeader(f, rest);
  }

  lemma AfterHeader(f: Packet, rest: seq<byte>)
    ensures |Frame(f)| >= HEADER && (Frame(f) + rest)[HEADER..] == f.m.payload + rest
  {
  }

  /** What stands where in a frame: the size, the name's field, the instruction and the payload. */
  lemma FrameLayout(f: Packet)
    requires Framable(f)
    ensures |Frame(f)| == 16 + |f.m.payload|
    ensures DecodeInt(Frame(f)[0..4]) == |f.m.payload| && DecodeInt(Frame(f)[12..16]) == f.m.kind
    ensures Frame(f)[4..4 + |f.name|] == f.name && (|f.name| < 8 ==> Frame(f)[4 + |f.name|] == 0)
    ensures Frame(f)[16..] == f.m.payload
  {
    Parts(EncodeInt(|f.m.payload|), Field(f.name, f.after), EncodeInt(f.m.kind), f.m.payload, []);
    IntRoundTrip(|f.m.payload|);
    IntRoundTrip(f.m.kind);
    var s := Frame(f);
    assert s + [] == s && s[..HEADER][..4] == s[0..4];
    assert s[..HEADER][4..12] == s[4..12] && s[..HEADER][12..16] == s[12..16];
    assert s[4..12][..|f.name|] == s[4..4 + |f.name|];
  }

  lemma FrameThenRest(profile: Profile, f: Packet, rest: seq<byte>)
    requires Sendable(profile, f)
    ensures |Frame(f)| == Size(f)
    ensures var s := Frame(f) + rest;
            && ReceiveAll(profile, s).0 == [f.m] + ReceiveAll(profile, rest).0
            && ReceiveAll(profile, s).1 == Size(f) + ReceiveAll(profile, rest).1
  {
    FrameDeliveredExactlyWhen(profile, f, rest);
    HeaderOf(f, rest);
  }

  lemma TablesThenRest(profile: Profile, g: Factory, f: Packet, rest: seq<byte>)
    requires Sendable(profile, f)
    ensures TablesAfterAll(profile, g, Frame(f) + rest) == TablesAfterAll(profile, TablesNamed(profile, f.name), rest)
  {
    FrameDeliveredExactlyWhen(profile, f, rest);
    FrameTables(profile, g, f, rest);
    HeaderOf(f, rest);
  }

  // ---------- streams ----------

  ghost predicate AllSendable(profile: Profile, fs: seq<Packet>) {
    forall f :: f in fs ==> Sendable(profile, f)
  }

  lemma RestSendable(profile: Profile, fs: seq<Packet>)
    requires AllSendable(profile, fs) && fs != []
    ensures Sendable(profile, fs[0]) && AllSendable(profile, fs[1..])
  {
    assert fs[0] in fs && forall f :: f in fs[1..] ==> f in fs;
  }

  lemma FirstSendable(profile: Profile, fs: seq<Packet>, k: nat)
    requires AllSendable(profile, fs) && k <= |fs|
    ensures AllSendable(profile, fs[..k]) && (k > 0 ==> Sendable(profile, fs[k - 1]))
  {
    assert forall f :: f in fs[..k] ==> f in fs;
    assert k > 0 ==> fs[k - 1] in fs;
  }

  /** Frames one after another, each under its own protocol name. */
  function Stream(fs: seq<Packet>): seq<byte> {
    if fs == [] then [] else Frame(fs[0]) + Stream(fs[1..])
  }

  function Messages(fs: seq<Packet>): seq<Message> {
    seq(|fs|, i requires 0 <= i < |fs| => fs[i].m)
  }

  /** The whole stream comes back as the messages, and nothing is left over, whatever comes with the names. */
  lemma {:induction false} StreamRoundTrip(profile: Profile, fs: seq<Packet>)
    requires AllSendable(profile, fs)
    ensures ReceiveAll(profile, Stream(fs)).0 == Messages(fs)
    ensures ReceiveAll(profile, Stream(fs)).1 == |Stream(fs)|
  {
    if fs != [] {
      RestSendable(profile, fs);
      StreamRoundTrip(profile, fs[1..]);
      FrameThenRest(profile, fs[0], Stream(fs[1..]));
      FirstThenRest(fs, |fs| - 1);
    }
  }

  /** After a stream the tables are those of the protocol that its last frame names. */
  lemma {:induction false} StreamTables(profile: Profile, g: Factory, fs: seq<Packet>)
    requires AllSendable(profile, fs)
    ensures TablesAfterAll(profile, g, Stream(fs))
         == if fs == [] then g else TablesNamed(profile, fs[|fs| - 1].name)
    decreases |fs|
  {
    if fs != [] {
      RestSendable(profile, fs);
      StreamTables(profile, TablesNamed(profile, fs[0].name), fs[1..]);
      TablesThenRest(profile, g, fs[0], Stream(fs[1..]));
    }
  }

  lemma NamedIsLoaded(profile: Profile, g: Factory, name: Name)
    requires Genuine(profile, g) && Loaded(profile, name).Some?
    ensures TablesNamed(profile, name) == g <==> name == g.version
  {
  }

  lemma TablesAt(profile: Profile, g: Factory, fs: seq<Packet>, k: nat)
    requires AllSendable(profile, fs) && Genuine(profile, g) && k <= |fs|
    ensures TablesAfterAll(profile, g, Stream(fs[..k])) == g <==> k == 0 || fs[k - 1].name == g.version
  {
    FirstSendable(profile, fs, k);
    StreamTables(profile, g, fs[..k]);
    if k > 0 {
      NamedIsLoaded(profile, g, fs[k - 1].name);
    }
  }

  /**
   Rebuilding the tables for every frame changes nothing, not even the protocol name, at any point of a
   stream exactly when every frame names the protocol that is loaded.
   */
  lemma TablesStayExactlyWhen(profile: Profile, g: Factory, fs: seq<Packet>)
    requires AllSendable(profile, fs) && Genuine(profile, g)
    ensures (forall k :: 0 <= k <= |fs| ==> TablesAfterAll(profile, g, Stream(fs[..k])) == g)
       <==> forall i :: 0 <= i < |fs| ==> fs[i].name == g.version
  {
    forall k | 0 <= k <= |fs|
      ensures TablesAfterAll(profile, g, Stream(fs[..k])) == g <==> k == 0 || fs[k - 1].name == g.version
    {
      TablesAt(profile, g, fs, k);
    }
    if forall k :: 0 <= k <= |fs| ==> TablesAfterAll(profile, g, Stream(fs[..k])) == g {
      forall i | 0 <= i < |fs| ensures fs[i].name == g.version {
        assert TablesAfterAll(profile, g, Stream(fs[..i + 1])) == g;
      }
    }
  }

  /**
   With a profile that does not look at the name, the rebuild for each frame never changes a lookup:
   not at any point of any stream of frames, under whatever names, once a protocol is loaded.
   */
  lemma StreamKeepsLookups(profile: Profile, offer: Offer, g: Factory, fs: seq<Packet>, k: nat)
    requires Uniform(profile, offer) && Genuine(profile, g) && g.version != NO_PROTOCOL
    requires AllSendable(profile, fs) && k <= |fs|
    ensures SameLookups(TablesAfterAll(profile, g, Stream(fs[..k])), g)
  {
    FirstSendable(profile, fs, k);
    StreamTables(profile, g, fs[..k]);
    if k > 0 {
      AnyNameSameLookups(profile, offer, g, fs[k - 1].name);
    }
  }

  /** Nor does any other stream of bytes, as long as it does not leave "none" loaded. */
  lemma {:induction false} BytesKeepLookups(profile: Profile, offer: Offer, g: Factory, s: seq<byte>)
    requires Uniform(profile, offer) && Genuine(profile, g)
    ensures Genuine(profile, TablesAfterAll(profile, g, s))
    ensures g.version != NO_PROTOCOL && TablesAfterAll(profile, g, s).version != NO_PROTOCOL ==>
              SameLookups(TablesAfterAll(profile, g, s), g)
    decreases |s|
  {
    var o, g' := ReceiveOne(profile, s), TablesAfter(profile, g, s);
    assert Genuine(profile, g');
    if o.Delivered? || o.Rejected? {
      BytesKeepLookups(profile, offer, g', s[o.used..]);
    }
    var last := TablesAfterAll(profile, g, s);
    if g.version != NO_PROTOCOL && last.version != NO_PROTOCOL {
      SameTablesSameLookups(last, g);
    }
  }

  // ---------- streams that are cut ----------

  /** The frames that lie whole within the first n bytes. */
  function Whole(fs: seq<Packet>, n: nat): (k: nat)
    ensures k <= |fs|
    decreases |fs|
  {
    if fs == [] || n < Size(fs[0]) then 0 else 1 + Whole(fs[1..], n - Size(fs[0]))
  }

  lemma CutFrame(profile: Profile, f: Packet, n: nat)
    requires Sendable(profile, f) && n < Size(f)
    ensures |Frame(f)| == Size(f)
    ensures ReceiveOne(profile, Frame(f)[..n]) == Closed
  {
    HeaderOf(f, []);
    var s := Frame(f);
    assert s + [] == s;
    if n >= HEADER {
      assert s[..n][..HEADER] == s[..HEADER];
    }
  }

  lemma CutInFirst(profile: Profile, f: Packet, rest: seq<byte>, n: nat)
    requires Sendable(profile, f) && n < Size(f)
    ensures |Frame(f)| == Size(f)
    ensures ReceiveAll(profile, (Frame(f) + rest)[..n]).0 == []
  {
    CutFrame(profile, f, n);
    assert (Frame(f) + rest)[..n] == Frame(f)[..n];
  }

  lemma CutInRest(profile: Profile, f: Packet, rest: seq<byte>, n: nat)
    requires Sendable(profile, f) && Size(f) <= n <= Size(f) + |rest|
    ensures |Frame(f)| == Size(f)
    ensures ReceiveAll(profile, (Frame(f) + rest)[..n]).0 == [f.m] + ReceiveAll(profile, rest[..n - Size(f)]).0
  {
    FrameThenRest(profile, f, rest[..n - Size(f)]);
    assert (Frame(f) + rest)[..n] == Frame(f) + rest[..n - Size(f)];
  }

  /** A stream cut anywhere yields exactly the messages that were whole before the cut. */
  lemma {:induction false} CutStream(profile: Profile, fs: seq<Packet>, n: nat)
    requires AllSendable(profile, fs) && n <= |Stream(fs)|
    ensures ReceiveAll(profile, Stream(fs)[..n]).0 == Messages(fs)[..Whole(fs, n)]
  {
    if fs != [] {
      var rest := Stream(fs[1..]);
      RestSendable(profile, fs);
      FrameSize(fs[0]);
      if n < Size(fs[0]) {
        CutInFirst(profile, fs[0], rest, n);
      } else {
        CutStream(profile, fs[1..], n - Size(fs[0]));
        CutInRest(profile, fs[0], rest, n);
        FirstThenRest(fs, Whole(fs[1..], n - Size(fs[0])));
      }
    }
  }

  lemma FrameSize(f: Packet)
    ensures |Frame(f)| == Size(f)
  {
  }

  lemma FirstThenRest(fs: seq<Packet>, k: nat)
    requires fs != [] && k < |fs|
    ensures [fs[0].m] + Messages(fs[1..])[..k] == Messages(fs)[..k + 1]
    ensures [fs[0].m] + Messages(fs[1..]) == Messages(fs)
  {
  }

  // ---------- the connection ----------

  class Link {
    const factory: TransferableFactory
    var online: bool
    var incoming: seq<byte> // what the peer wrote before it closed, not read yet

    constructor (factory: TransferableFactory, incoming: seq<byte>)
      ensures this.factory == factory && online && this.incoming == incoming
    {
      this.factory, online, this.incoming := factory, true, incoming;
    }

    /**
     `send`: a frame for the factory's protocol, byte by byte; the write that fails, if any, is number
     `failing`. `after` is what follows the protocol name in memory.
     */
    method Send(className: string, payload: seq<byte>, after: seq<byte>, failing: nat) returns (sent: seq<byte>)
      requires |factory.version| <= 8 ==> Fits(factory.version, after)
      modifies this
      ensures incoming == old(incoming)
      ensures old(online) && |factory.version| <= 8 && factory.Type(className).Some? ==>
                var f := Frame(Framed(Message(factory.Type(className).value, payload), factory.version, after));
                && sent == (if failing < |f| then f[..failing] else f)
                && online == (failing >= |f|)
      ensures !(old(online) && |factory.version| <= 8 && factory.Type(className).Some?) ==>
                sent == [] && online == old(online)
    {
      sent := [];
      if !online {
        return;
      }
      var protocol := factory.version;
      if |protocol| > 8 {
        return;
      }
      var kind := factory.Type(className);
      if kind.None? {
        return;
      }
      var buffer := EncodeInt(|payload|) + Field(protocol, after) + EncodeInt(kind.value) + payload;
      var n := 0;
      while n != |buffer|
        invariant 0 <= n <= |buffer| && n <= failing && sent == buffer[..n] && online && incoming == old(incoming)
      {
        if n == failing {
          online := false;
          return;
        }
        sent := sent + [buffer[n]];
        n := n + 1;
      }
    }

    /** SSL_read of a number of bytes, one at a time; the connection closes when the peer's bytes run out. */
    method Read(count: nat) returns (b: seq<byte>)
      modifies this
      ensures |old(incoming)| >= count ==>
                b == old(incoming)[..count] && incoming == old(incoming)[count..] && online == old(online)
      ensures |old(incoming)| < count ==> b == old(incoming) && incoming == [] && !online
    {
      b := [];
      var n := 0;
      while n != count
        invariant 0 <= n <= count && n <= |old(incoming)| && online == old(online)
        invariant b == old(incoming)[..n] && incoming == old(incoming)[n..]
      {
        if incoming == [] {
          online := false;
          return;
        }
        b := b + [incoming[0]];
        incoming := incoming[1..];
        n := n + 1;
      }
    }

    /** The part of `receiveTransfThread` that asks the factory. */
    method Examine(h: Header) returns (verdict: Verdict)
      modifies factory
      ensures verdict == Judge(factory.profile, h)
      ensures factory.View() == TablesFor(factory.profile, old(factory.View()), h)
    {
      if h.name.None? {
        return NoMeaning;
      }
      var ok := factory.SetProtocol(h.name.value);
      if !ok {
        return NoMeaning;
      }
      if factory.Creator(h.kind).None? {
        return UnknownKind;
      }
      return if h.size < 0 then NoMeaning else Accepted;
    }

    /** The second half of `receiveTransfThread`: what follows a header of the given verdict. */
    method ReceivePayload(h: Header, verdict: Verdict) returns (o: Outcome)
      requires verdict.Accepted? ==> h.size >= 0
      modifies this
      ensures o == PayloadOutcome(h, verdict, old(incoming))
      ensures incoming == (if o.Closed? then [] else if o.Delivered? then old(incoming)[h.size..] else old(incoming))
      ensures online == (old(online) && !o.Closed?)
    {
      match verdict {
        case NoMeaning => return Undefined;
        case UnknownKind => return Rejected(HEADER);
        case Accepted =>
      }
      var payload := Read(h.size);
      if |payload| < h.size {
        return Closed;
      }
      return Delivered(Message(h.kind, payload), HEADER + h.size);
    }

    /** `receiveTransfThread`. */
    method ReceiveTransf() returns (o: Outcome)
      modifies this, factory
      ensures o == ReceiveOne(factory.profile, old(incoming))
      ensures o.Delivered? || o.Rejected? ==> o.used <= |old(incoming)| && incoming == old(incoming)[o.used..]
      ensures o.Delivered? || o.Rejected? ==> online == old(online)
      ensures o.Closed? ==> incoming == [] && !online
      ensures factory.View() == TablesAfter(factory.profile, old(factory.View()), old(incoming))
    {
      var header := Read(HEADER);
      if |header| < HEADER {
        return Closed;
      }
      var h := ReadHeader(header);
      var verdict := Examine(h);
      o := ReceivePayload(h, verdict);
    }

    /** `receiveThread`, up to the end of the connection or a step without defined effect. */
    method ReceiveThread() returns (delivered: seq<Message>)
      requires online
      modifies this, factory
      ensures delivered == ReceiveAll(factory.profile, old(incoming)).0
      ensures factory.View() == TablesAfterAll(factory.profile, old(factory.View()), old(incoming))
    {
      ghost var profile, start, first := factory.profile, incoming, factory.View();
      delivered := [];
      var going := true;
      while going
        invariant going ==> Leads(profile, start, first, delivered, incoming, factory.View())
        invariant !going ==> delivered == ReceiveAll(profile, start).0
        invariant !going ==> factory.View() == TablesAfterAll(profile, first, start)
        decreases going, |incoming|
      {
        LeadsOn(profile, start, first, delivered, incoming, factory.View());
        var o := ReceiveTransf();
        match o {
          case Delivered(m, _) => delivered := delivered + [m];
          case Rejected(_) =>
          case _ => going := false;
        }
      }
    }
  }

  /** Having delivered ms with the bytes s still to read, the loop is on its way to what it does to `start`. */
  ghost predicate Leads(profile: Profile, start: seq<byte>, first: Factory, ms: seq<Message>, s: seq<byte>,
                        g: Factory) {
    && ReceiveAll(profile, start).0 == ms + ReceiveAll(profile, s).0
    && TablesAfterAll(profile, first, start) == TablesAfterAll(profile, g, s)
  }

  lemma LeadsOn(profile: Profile, start: seq<byte>, first: Factory, ms: seq<Message>, s: seq<byte>, g: Factory)
    requires Leads(profile, start, first, ms, s, g)
    ensures var g' := TablesAfter(profile, g, s);
            var o := ReceiveOne(profile, s);
            if o.Delivered? then Leads(profile, start, first, ms + [o.m], s[o.used..], g')
            else if o.Rejected? then Leads(profile, start, first, ms, s[o.used..], g')
            else ReceiveAll(profile, start).0 == ms && TablesAfterAll(profile, first, start) == g'
  {
    var o := ReceiveOne(profile, s);
    if o.Delivered? {
      var more := ReceiveAll(profile, s[o.used..]).0;
      assert ms + ([o.m] + more) == (ms + [o.m]) + more;
    }
  }
}
