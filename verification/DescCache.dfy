/** The descriptor cache of a connection, keyed by query and validated by the raw describe bytes. */
module DescCache {
  import opened Common
  import opened Descriptors
  import opened DescribeParser
  import opened Describe

  const SLOTS := 32
  const FNV_OFFSET := 2166136261
  const FNV_PRIME := 16777619
  const AUX_CAPACITY := 256

  /**
   * One query as the wire answers it: the data of other responses since the last one, the describe bytes that
   * come with the prepare, and the data of the continuations, as many as the server is willing to send.
   */
  datatype Query = Query(text: Bytes, earlier: seq<Bytes>, info: Bytes, more: seq<Bytes>)

  predicate IsTruncated(info: Bytes) { ParseChunk(info, INITIAL).1 }

  function Done(st: State): nat { st.outputs.done + st.inputs.done }

  /** Follows continuations while there is something missing; the outcome, and how many were received for it. */
  function Rounds(st: State, truncated: bool, more: seq<Bytes>): (r: (Option<State>, nat))
    ensures r.1 <= |more|
    decreases |more|
  {
    if !truncated then (Some(st), 0)
    else if more == [] then (None, 0)
    else
      var (st', cut) := ParseChunk(more[0], st);
      if cut && Done(st') == Done(st) then (None, 1)
      else
        var (end, n) := Rounds(st', cut, more[1..]);
        (end, n + 1)
  }

  function RoundsOf(q: Query): (Option<State>, nat) {
    var (st, truncated) := ParseChunk(q.info, INITIAL);
    Rounds(st, truncated, q.more)
  }

  /** What describing the statement yields. */
  function Afresh(q: Query, charset: int): Option<Described> {
    match RoundsOf(q).0
    case Some(st) => Some(Finish(st, charset))
    case None => None
  }

  /** The continuations describing it takes. */
  function Continued(q: Query): seq<Bytes> { q.more[..RoundsOf(q).1] }

  const NOTHING := Described(0, [], [])

  /** One 32-bit FNV-1a step: exclusive-or into the low byte, then multiply. */
  function MixByte(h: nat, b: byte): (r: nat)
    ensures r < TWO_32
  {
    var low := ((h % 256) as bv8 ^ (b as bv8)) as int;
    (h - h % 256 + low) * FNV_PRIME % TWO_32
  }

  function Mix(text: Bytes, h: nat): nat {
    if text == [] then h else Mix(text[1..], MixByte(h, text[0]))
  }

  lemma {:induction false} MixSnoc(text: Bytes, b: byte, h: nat)
    ensures Mix(text + [b], h) == MixByte(Mix(text, h), b)
  {
    hide MixByte;
    if text == [] {
      assert text + [b] == [b] && [b][1..] == [];
    } else {
      assert (text + [b])[1..] == text[1..] + [b];
      MixSnoc(text[1..], b, MixByte(h, text[0]));
    }
  }

  function Slot(text: Bytes): (index: nat)
    ensures index < SLOTS
  {
    Mix(text, FNV_OFFSET) % SLOTS
  }

  /** The published 32-bit FNV-1a values of the empty text, of "a" and of "fo". */
  lemma KnownHashes()
    ensures Mix([], FNV_OFFSET) == 0x811C9DC5
    ensures Mix([0x61], FNV_OFFSET) == 0xE40C292C
    ensures Mix([0x66, 0x6F], FNV_OFFSET) == 0x6222E842
  {
    hide Mix;
    assert Mix([], FNV_OFFSET) == FNV_OFFSET by { MixNothing(FNV_OFFSET); }
    MixSnoc([], 0x61, FNV_OFFSET);
    MixSnoc([], 0x66, FNV_OFFSET);
    MixSnoc([0x66], 0x6F, FNV_OFFSET);
    assert [] + [0x61] == [0x61] && [] + [0x66] == [0x66] && [0x66] + [0x6F] == [0x66, 0x6F];
    MixedBytes();
  }

  lemma MixNothing(h: nat)
    ensures Mix([], h) == h
  {
  }

  lemma MixedBytes()
    ensures MixByte(0x811C9DC5, 0x61) == 0xE40C292C
    ensures MixByte(0x811C9DC5, 0x66) == 0xE30C2799
    ensures MixByte(0xE30C2799, 0x6F) == 0x6222E842
  {
    assert (0xC5 as bv8) ^ (0x61 as bv8) == 0xA4;
    assert (0xC5 as bv8) ^ (0x66 as bv8) == 0xA3;
    assert (0x99 as bv8) ^ (0x6F as bv8) == 0xF6;
  }

  method DescCacheIndex(text: Bytes) returns (index: nat)
    ensures index == Slot(text) && index == Mix(text, 0x811C9DC5) % 32
  {
    hide MixByte;
    var h := FNV_OFFSET;
    for i := 0 to |text|
      invariant 0 <= h && h == Mix(text[..i], FNV_OFFSET)
    {
      MixSnoc(text[..i], text[i], FNV_OFFSET);
      assert text[..i + 1] == text[..i] + [text[i]];
      h := MixByte(h, text[i]);
    }
    assert text[..|text|] == text;
    index := h % SLOTS;
  }

  // ---------------------------------------------------------------------------
  // The response buffer
  // ---------------------------------------------------------------------------

  /** Response data lands in the connection's buffer, which is reused while it is large enough. */
  method Receive(aux: array<byte>, data: Bytes) returns (buf: array<byte>)
    modifies aux
    ensures buf.Length == CapacityAfter(aux.Length, [data]) && |data| <= buf.Length && buf[..|data|] == data
    ensures if |data| <= aux.Length then buf == aux else fresh(buf)
    ensures forall i :: 0 <= i < aux.Length ==>
      aux[i] == if i < |data| && |data| <= aux.Length then data[i] else old(aux[i])
  {
    buf := aux;
    if buf.Length < |data| {
      buf := new byte[|data|];
    }
    forall i | 0 <= i < |data| {
      buf[i] := data[i];
    }
  }

  /** The capacity of the buffer once all this has been received. */
  function CapacityAfter(capacity: nat, received: seq<Bytes>): (r: nat)
    ensures capacity <= r
    decreases |received|
  {
    if received == [] then capacity
    else CapacityAfter(if capacity < |received[0]| then |received[0]| else capacity, received[1..])
  }

  lemma {:induction false} CapacityTwice(capacity: nat, a: seq<Bytes>, b: seq<Bytes>)
    ensures CapacityAfter(capacity, a + b) == CapacityAfter(CapacityAfter(capacity, a), b)
    decreases |a|
  {
    if a == [] {
      assert a + b == b;
    } else {
      assert (a + b)[1..] == a[1..] + b;
      CapacityTwice(if capacity < |a[0]| then |a[0]| else capacity, a[1..], b);
    }
  }

  predicate Fit(received: seq<Bytes>, capacity: nat) {
    forall i :: 0 <= i < |received| ==> |received[i]| <= capacity
  }

  /** The first bytes replaced by new data. */
  function Over(data: Bytes, key: Bytes): (r: Bytes)
    ensures |r| == |key|
  {
    if |data| < |key| then data + key[|data|..] else data[..|key|]
  }

  /**
   * What a slice of the buffer holds after more responses: each overwrites its beginning, until one is too long
   * for the buffer and moves it elsewhere.
   */
  function Overlaid(key: Bytes, capacity: nat, received: seq<Bytes>): (r: Bytes)
    ensures |r| == |key|
    decreases |received|
  {
    if received == [] || capacity < |received[0]| then key
    else Overlaid(Over(received[0], key), capacity, received[1..])
  }

  lemma {:induction false} OverlaidNext(key: Bytes, capacity: nat, received: seq<Bytes>, data: Bytes)
    ensures Overlaid(key, capacity, received + [data])
         == if Fit(received + [data], capacity) then Over(data, Overlaid(key, capacity, received))
            else Overlaid(key, capacity, received)
    decreases |received|
  {
    var all := received + [data];
    if received == [] {
      assert all == [data] && all[1..] == [];
    } else {
      assert all[0] == received[0] && all[1..] == received[1..] + [data];
      assert Fit(all, capacity) <==> |received[0]| <= capacity && Fit(all[1..], capacity);
      OverlaidNext(Over(received[0], key), capacity, received[1..], data);
    }
  }

  /** How many responses went into the buffer before one was too long. */
  function Landed(capacity: nat, received: seq<Bytes>): (n: nat)
    ensures n <= |received| && Fit(received[..n], capacity) && (n < |received| ==> capacity < |received[n]|)
    decreases |received|
  {
    if received == [] || capacity < |received[0]| then 0
    else
      var n := Landed(capacity, received[1..]);
      assert received[..n + 1] == [received[0]] + received[1..][..n];
      n + 1
  }

  /** The last response that went into the buffer shows in full, as far as the slice reaches. */
  lemma {:induction false} LastShows(key: Bytes, capacity: nat, received: seq<Bytes>)
    ensures var n, r := Landed(capacity, received), Overlaid(key, capacity, received);
            && |r| == |key| && n <= |received|
            && if n == 0 then r == key
               else forall p :: 0 <= p < |key| && p < |received[n - 1]| ==> r[p] == received[n - 1][p]
    decreases |received|
  {
    if received != [] && |received[0]| <= capacity {
      LastShows(Over(received[0], key), capacity, received[1..]);
    }
  }

  // ---------------------------------------------------------------------------
  // The cache as a value
  // ---------------------------------------------------------------------------

  datatype Stored = Stored(text: Bytes, key: Bytes, described: Described)

  const UNUSED := Stored([], [], NOTHING)

  /** The slots, and the capacity of the response buffer. */
  datatype Memory = Memory(slots: seq<Stored>, capacity: nat) {
    predicate Valid() { |slots| == SLOTS }

    function EntryFor(q: Query): Stored
      requires Valid()
    {
      slots[Slot(q.text)]
    }

    /** The capacity by the time the describe bytes have arrived. */
    function CapacityAt(q: Query): nat { CapacityAfter(capacity, q.earlier + [q.info]) }

    predicate Hits(q: Query)
      requires Valid()
    {
      EntryFor(q).text == q.text && EntryFor(q).key == q.info
    }

    /** What is remembered as this query's describe bytes: the continuations have passed through their buffer. */
    function Key(q: Query): Bytes { Overlaid(q.info, CapacityAt(q), Continued(q)) }

    function Result(q: Query, charset: int): Option<Described>
      requires Valid()
    {
      if Hits(q) then Some(EntryFor(q).described) else Afresh(q, charset)
    }

    function After(q: Query, charset: int): (m: Memory)
      requires Valid()
      ensures m.Valid()
    {
      if Hits(q) then this.(capacity := CapacityAt(q))
      else
        var c := CapacityAfter(CapacityAt(q), Continued(q));
        match Afresh(q, charset)
        case None => this.(capacity := c)
        case Some(d) => Memory(slots[Slot(q.text) := Stored(q.text, Key(q), d)], c)
    }
  }

  const START := Memory(Repeat(UNUSED, SLOTS), AUX_CAPACITY)

  function Remembered(history: seq<Query>, charset: int): (m: Memory)
    ensures m.Valid()
  {
    if history == [] then START
    else Remembered(history[..|history| - 1], charset).After(history[|history| - 1], charset)
  }

  // ---------------------------------------------------------------------------
  // Which query an entry comes from
  // ---------------------------------------------------------------------------

  /** Query `j` was not answered from the cache, and was described to the end. */
  ghost predicate Stores(history: seq<Query>, j: nat, charset: int)
    requires j < |history|
  {
    !Remembered(history[..j], charset).Hits(history[j]) && Afresh(history[j], charset).Some?
  }

  /** No later query has taken its slot. */
  ghost predicate LastStored(history: seq<Query>, j: nat, charset: int)
    requires j < |history|
  {
    && Stores(history, j, charset)
    && forall k :: j < k < |history| && Slot(history[k].text) == Slot(history[j].text) ==> !Stores(history, k, charset)
  }

  /** The key under which query `j` is remembered, if it is. */
  function KeyOf(history: seq<Query>, j: nat, charset: int): Bytes
    requires j < |history|
  {
    Remembered(history[..j], charset).Key(history[j])
  }

  /** What a slot holds is what the last query to store there left. */
  ghost predicate Explained(history: seq<Query>, slot: nat, e: Stored, charset: int) {
    || (e == UNUSED && forall j :: 0 <= j < |history| && Slot(history[j].text) == slot ==> !Stores(history, j, charset))
    || (exists j :: IsEntryOf(history, slot, e, j, charset))
  }

  ghost predicate IsEntryOf(history: seq<Query>, slot: nat, e: Stored, j: int, charset: int) {
    && 0 <= j < |history| && Slot(history[j].text) == slot && LastStored(history, j, charset)
    && e == Stored(history[j].text, KeyOf(history, j, charset), Afresh(history[j], charset).value)
  }

  /** A query that stores nothing in the slot leaves its entry explained. */
  lemma ExplainedStill(history: seq<Query>, q: Query, slot: nat, e: Stored, charset: int)
    requires Explained(history, slot, e, charset)
    requires Slot(q.text) == slot ==> !Stores(history + [q], |history|, charset)
    ensures Explained(history + [q], slot, e, charset)
  {
    hide Afresh, Slot, Remembered, Memory.Key, Memory.Hits;
    var all := history + [q];
    forall j | 0 <= j < |history|
      ensures Stores(all, j, charset) == Stores(history, j, charset) && all[j] == history[j]
      ensures KeyOf(all, j, charset) == KeyOf(history, j, charset)
    {
      assert all[..j] == history[..j];
    }
    if j :| IsEntryOf(history, slot, e, j, charset) {
      assert IsEntryOf(all, slot, e, j, charset);
    }
  }

  lemma EntryStored(history: seq<Query>, q: Query, charset: int)
    requires Stores(history + [q], |history|, charset)
    ensures var slot := Slot(q.text);
            Explained(history + [q], slot, Remembered(history + [q], charset).slots[slot], charset)
  {
    hide Afresh, Slot, Memory.Key, Memory.Hits, CapacityAfter, RoundsOf;
    var all := history + [q];
    assert all[..|history|] == history && all[|history|] == q;
    assert IsEntryOf(all, Slot(q.text), Remembered(all, charset).slots[Slot(q.text)], |history|, charset);
  }

  lemma {:induction false} EntryFrom(history: seq<Query>, slot: nat, charset: int)
    requires slot < SLOTS
    ensures Explained(history, slot, Remembered(history, charset).slots[slot], charset)
    decreases |history|
  {
    hide Afresh, Slot, Memory.Key, Memory.Hits, CapacityAfter, RoundsOf, Explained;
    if history == [] {
      NothingStored(slot, charset);
    } else {
      var n := |history| - 1;
      var before, q := history[..n], history[n];
      assert before + [q] == history;
      EntryFrom(before, slot, charset);
      if Stores(history, n, charset) && Slot(q.text) == slot {
        EntryStored(before, q, charset);
      } else {
        ExplainedStill(before, q, slot, Remembered(before, charset).slots[slot], charset);
      }
    }
  }

  lemma NothingStored(slot: nat, charset: int)
    requires slot < SLOTS
    ensures Explained([], slot, Remembered([], charset).slots[slot], charset)
  {
  }

  // ---------------------------------------------------------------------------
  // When an answer is wrong
  // ---------------------------------------------------------------------------

  /**
   * The last query to store in the slot had the same text, got another answer, and the continuations that
   * passed through its describe bytes left exactly the bytes that have come now.
   */
  ghost predicate Confused(history: seq<Query>, q: Query, charset: int) {
    exists j :: 0 <= j < |history| && ConfusedWith(history, q, j, charset)
  }

  ghost predicate ConfusedWith(history: seq<Query>, q: Query, j: nat, charset: int)
    requires j < |history|
  {
    && history[j].text == q.text && LastStored(history, j, charset)
    && KeyOf(history, j, charset) == q.info && Afresh(history[j], charset) != Afresh(q, charset)
  }

  lemma ConfusedExactly(history: seq<Query>, q: Query, charset: int)
    ensures Remembered(history, charset).Result(q, charset) == Afresh(q, charset) <==> !Confused(history, q, charset)
  {
    hide Afresh, Slot, Overlaid, CapacityAfter, RoundsOf, Memory.After, LastStored;
    var m, slot := Remembered(history, charset), Slot(q.text);
    EntryFrom(history, slot, charset);
    if j :| IsEntryOf(history, slot, m.EntryFor(q), j, charset) {
      LastStores(history, j, charset);
      if m.Result(q, charset) != Afresh(q, charset) {
        assert ConfusedWith(history, q, j, charset);
      }
      forall k | 0 <= k < |history| && ConfusedWith(history, q, k, charset) ensures k == j {
        OnlyOneLast(history, j, k, charset);
      }
    } else {
      if q.text == [] && q.info == [] {
        EmptyDescribe(q, charset);
      }
      forall k | 0 <= k < |history| ensures !ConfusedWith(history, q, k, charset) {
        LastStores(history, k, charset);
      }
    }
  }

  lemma OnlyOneLast(history: seq<Query>, j: nat, k: nat, charset: int)
    requires j < |history| && k < |history| && LastStored(history, j, charset) && LastStored(history, k, charset)
    requires Slot(history[j].text) == Slot(history[k].text)
    ensures j == k
  {
    hide Stores, Slot;
  }

  lemma LastStores(history: seq<Query>, k: nat, charset: int)
    requires k < |history|
    ensures LastStored(history, k, charset) ==> Stores(history, k, charset)
  {
    hide Stores, Slot;
  }

  lemma EmptyDescribe(q: Query, charset: int)
    requires q.info == []
    ensures Afresh(q, charset) == Some(NOTHING)
  {
    assert ParseChunk([], INITIAL) == (INITIAL, false);
    assert Finish(INITIAL, charset) == NOTHING;
  }

  /** An untruncated query can only be misled by an earlier truncated one with its text. */
  lemma UntruncatedAreRight(history: seq<Query>, q: Query, charset: int)
    requires !IsTruncated(q.info)
    requires forall j :: 0 <= j < |history| && history[j].text == q.text ==> !IsTruncated(history[j].info)
    ensures Remembered(history, charset).Result(q, charset) == Afresh(q, charset)
  {
    hide Slot, CapacityAfter, Finish, Remembered, LastStored, Memory.Result;
    ConfusedExactly(history, q, charset);
    forall j | 0 <= j < |history| && history[j].text == q.text ensures !ConfusedWith(history, q, j, charset) {
      assert Continued(history[j]) == [];
    }
  }

  /**
   * A truncated query repeated at once is answered from the cache exactly if the continuations have left its
   * bytes as they were; then whatever they would add now goes unnoticed.
   */
  lemma StaleWhenTruncated(m: Memory, before: Query, now: Query, charset: int)
    requires m.Valid() && !m.Hits(before) && Afresh(before, charset).Some?
    requires now.text == before.text && now.info == before.info
    ensures m.After(before, charset).Result(now, charset)
         == if m.Key(before) == before.info then Afresh(before, charset) else Afresh(now, charset)
  {
    hide Afresh, Slot, Overlaid, CapacityAfter, RoundsOf;
  }

  /** One truncated describe leaves a key under which another statement's untruncated bytes are found. */
  lemma Misremembered(text: Bytes, charset: int)
    ensures var first := Query(text, [], [SQL_STMT_TYPE, 1, 0, 5, INFO_TRUNCATED], [[INFO_END]]);
            var second := Query(text, [], [INFO_END, 1, 0, 5, INFO_TRUNCATED], []);
            && !IsTruncated(second.info)
            && Remembered([first], charset).Result(second, charset) == Some(Described(5, [], []))
            && Afresh(second, charset) == Some(NOTHING)
  {
    hide Slot;
    var first := Query(text, [], [SQL_STMT_TYPE, 1, 0, 5, INFO_TRUNCATED], [[INFO_END]]);
    var second := Query(text, [], [INFO_END, 1, 0, 5, INFO_TRUNCATED], []);
    var typed := State(5, EMPTY_SECTION, EMPTY_SECTION);
    StatementType(5, INFO_TRUNCATED);
    assert ParseChunk([INFO_END], typed) == (typed, false);
    assert first.more[1..] == [] && Rounds(typed, false, []) == (Some(typed), 0);
    assert RoundsOf(first) == (Some(typed), 1);
    assert Continued(first) == [[INFO_END]] && [[INFO_END]][1..] == [];
    assert first.earlier + [first.info] == [first.info];
    OneReceived(AUX_CAPACITY, first.info, first.info);
    OneReceived(AUX_CAPACITY, [INFO_END], first.info);
    assert START.Key(first) == second.info;
    assert !START.Hits(first);
    assert [first][..0] == [];
    assert ParseChunk(second.info, INITIAL) == (INITIAL, false);
    assert Finish(INITIAL, charset) == NOTHING && Finish(typed, charset) == Described(5, [], []);
  }

  lemma OneReceived(capacity: nat, data: Bytes, key: Bytes)
    ensures CapacityAfter(capacity, [data]) == if capacity < |data| then |data| else capacity
    ensures |data| <= capacity ==> Overlaid(key, capacity, [data]) == Over(data, key)
  {
    assert [data][1..] == [];
  }

  lemma StatementType(t: byte, end: byte)
    requires end == INFO_END || end == INFO_TRUNCATED
    ensures ParseChunk([SQL_STMT_TYPE, 1, 0, t, end], INITIAL)
         == (State(t, EMPTY_SECTION, EMPTY_SECTION), end == INFO_TRUNCATED)
  {
    var token := Item(SQL_STMT_TYPE, [t]);
    assert token.Encode() + [end] == [SQL_STMT_TYPE, 1, 0, t, end];
    ParseToken(token, [end], Scan(INITIAL, Nowhere, None));
  }

  // ---------------------------------------------------------------------------
  // The cache as it is
  // ---------------------------------------------------------------------------

  /** `info` is the entry's own array. */
  datatype Entry = Entry(text: Bytes, info: array<byte>, described: Described)

  class Cache {
    const charset: int
    const slots: array<Entry>
    /** The arrays the entries own. */
    ghost var copies: set<array<byte>>

    ghost predicate Holds(contents: seq<Stored>)
      reads this, slots, copies
    {
      && slots.Length == |contents| == SLOTS
      && (forall i :: 0 <= i < SLOTS ==> slots[i].info in copies)
      && (forall i :: 0 <= i < SLOTS ==> contents[i] == Stored(slots[i].text, slots[i].info[..], slots[i].described))
    }

    constructor (charset: int)
      ensures Holds(START.slots) && this.charset == charset && fresh(copies) && fresh(slots)
    {
      var empty := new byte[0];
      this.charset := charset;
      slots := new Entry[SLOTS](_ => Entry([], empty, NOTHING));
      copies := {empty};
      new;
      assert empty[..] == [];
    }

    /** A hit needs the same text and the same bytes. */
    method DescCacheLookup(text: Bytes, buf: array<byte>, n: nat, ghost contents: seq<Stored>)
      returns (r: Option<Described>)
      requires Holds(contents) && n <= buf.Length
      ensures var e := contents[Slot(text)];
              r == if e.text == text && e.key == buf[..n] then Some(e.described) else None
    {
      var index := DescCacheIndex(text);
      var e := slots[index];
      r := if e.text == text && e.info[..] == buf[..n] then Some(e.described) else None;
    }

    /** Replaces whatever had the slot; the entry keeps its own copy of the bytes. */
    method DescCacheStore(text: Bytes, buf: array<byte>, n: nat, described: Described, ghost contents: seq<Stored>)
      requires Holds(contents) && n <= buf.Length
      modifies slots, `copies
      ensures Holds(contents[Slot(text) := Stored(text, buf[..n], described)])
      ensures fresh(copies - old(copies)) && old(copies) <= copies && fresh(slots[Slot(text)].info)
    {
      var index := DescCacheIndex(text);
      var copy := new byte[n];
      forall i | 0 <= i < n {
        copy[i] := buf[i];
      }
      assert copy[..] == buf[..n];
      slots[index] := Entry(text, copy, described);
      copies := copies + {copy};
    }
  }

  /** The describe bytes as later responses have left them, and the buffer in use by then. */
  ghost predicate Received(buf: array<byte>, aux: array<byte>, info: Bytes, received: seq<Bytes>)
    reads buf
  {
    && |info| <= buf.Length && buf[..|info|] == Overlaid(info, buf.Length, received)
    && aux.Length == CapacityAfter(buf.Length, received) && (aux == buf <==> Fit(received, buf.Length))
  }

  method ReceiveNext(buf: array<byte>, aux: array<byte>, ghost info: Bytes, ghost received: seq<Bytes>, data: Bytes)
    returns (aux': array<byte>)
    requires Received(buf, aux, info, received)
    modifies aux
    ensures Received(buf, aux', info, received + [data]) && |data| <= aux'.Length && aux'[..|data|] == data
    ensures aux' == aux || fresh(aux')
  {
    OverlaidNext(info, buf.Length, received, data);
    CapacityTwice(buf.Length, received, [data]);
    FitNext(received, data, buf.Length);
    ghost var before := buf[..|info|];
    aux' := Receive(aux, data);
    if aux == buf && |data| <= buf.Length {
      assert buf[..|info|] == Over(data, before);
    } else {
      assert buf[..|info|] == before;
    }
  }

  lemma FitNext(received: seq<Bytes>, data: Bytes, capacity: nat)
    ensures Fit(received + [data], capacity) <==> Fit(received, capacity) && |data| <= capacity
  {
    var all := received + [data];
    assert all[|received|] == data && forall i :: 0 <= i < |received| ==> all[i] == received[i];
  }

  /** Describes to the end; every continuation lands in the connection's buffer, over what is there. */
  method CompleteSQLDescribe(buf: array<byte>, q: Query, charset: int) returns (aux: array<byte>, r: Option<Described>)
    requires |q.info| <= buf.Length && buf[..|q.info|] == q.info
    modifies buf
    ensures r == Afresh(q, charset) && Received(buf, aux, q.info, Continued(q)) && (aux == buf || fresh(aux))
  {
    hide ParseChunk, ApplyNoneAll, Received, Rounds, Overlaid, CapacityAfter;
    var ds := new DescribeState();
    var truncated := ds.ParseSQLDescribeChunk(buf[..|q.info|]);
    var k, failed := 0, false;
    aux := buf;
    NothingReceived(buf, q.info);
    assert q.more[0..] == q.more && q.more[..0] == [];
    while truncated && !failed
      invariant k <= |q.more| && Received(buf, aux, q.info, q.more[..k]) && (aux == buf || fresh(aux))
      invariant if failed then RoundsOf(q) == (None, k) else RoundsFrom(q, ds.st, truncated, k)
      decreases |q.more| - k, !failed
    {
      RoundsNext(q, ds.st, k);
      if k == |q.more| {
        failed := true;
      } else {
        var prevDone := Done(ds.st);
        aux := ReceiveNext(buf, aux, q.info, q.more[..k], q.more[k]);
        assert q.more[..k + 1] == q.more[..k] + [q.more[k]];
        truncated := ds.ParseSQLDescribeChunk(aux[..|q.more[k]|]);
        k := k + 1;
        failed := truncated && Done(ds.st) == prevDone;
      }
    }
    if failed {
      return aux, None;
    }
    NoMoreRounds(q, ds.st, k);
    var outputs := Reinterpret(ds.st.outputs.columns, charset);
    var inputs := Reinterpret(ds.st.inputs.columns, charset);
    r := Some(Described(ds.st.stmtType, outputs, inputs));
  }

  lemma NothingReceived(buf: array<byte>, info: Bytes)
    requires |info| <= buf.Length && buf[..|info|] == info
    ensures Received(buf, buf, info, [])
  {
  }

  /** What is left of the exchange after `k` continuations decides it. */
  ghost predicate RoundsFrom(q: Query, st: State, truncated: bool, k: nat)
    requires k <= |q.more|
  {
    var (end, n) := Rounds(st, truncated, q.more[k..]);
    RoundsOf(q) == (end, k + n)
  }

  lemma RoundsNext(q: Query, st: State, k: nat)
    requires k <= |q.more| && RoundsFrom(q, st, true, k)
    ensures k == |q.more| ==> RoundsOf(q) == (None, k)
    ensures k < |q.more| ==>
      var (st', cut) := ParseChunk(q.more[k], st);
      if cut && Done(st') == Done(st) then RoundsOf(q) == (None, k + 1) else RoundsFrom(q, st', cut, k + 1)
  {
    hide ParseChunk;
    assert k < |q.more| ==> q.more[k..][0] == q.more[k] && q.more[k..][1..] == q.more[k + 1..];
  }

  lemma NoMoreRounds(q: Query, st: State, k: nat)
    requires k <= |q.more| && RoundsFrom(q, st, false, k)
    ensures RoundsOf(q) == (Some(st), k)
  {
    hide ParseChunk;
  }

  /** Any responses, one after the other, through the connection's buffer. */
  method ReceiveAll(aux: array<byte>, received: seq<Bytes>) returns (buf: array<byte>)
    requires received != []
    modifies aux
    ensures buf.Length == CapacityAfter(aux.Length, received) && (buf == aux || fresh(buf))
    ensures var last := received[|received| - 1]; |last| <= buf.Length && buf[..|last|] == last
  {
    buf := aux;
    for i := 0 to |received|
      invariant buf.Length == CapacityAfter(aux.Length, received[..i]) && (buf == aux || fresh(buf))
      invariant i > 0 ==> |received[i - 1]| <= buf.Length && buf[..|received[i - 1]|] == received[i - 1]
    {
      CapacityTwice(aux.Length, received[..i], [received[i]]);
      assert received[..i + 1] == received[..i] + [received[i]];
      buf := Receive(buf, received[i]);
    }
    assert received[..|received|] == received;
  }

  /** Answers one query: from the cache when it can, otherwise afresh, remembering the answer. */
  method DescribeQuery(cache: Cache, aux: array<byte>, q: Query, ghost m: Memory)
    returns (aux': array<byte>, r: Option<Described>)
    requires m.Valid() && cache.Holds(m.slots) && aux.Length == m.capacity && aux !in cache.copies
    modifies cache, cache.slots, aux
    ensures var m' := m.After(q, cache.charset); cache.Holds(m'.slots) && aux'.Length == m'.capacity
    ensures r == m.Result(q, cache.charset)
    ensures (aux' == aux || fresh(aux')) && aux' !in cache.copies && fresh(cache.copies - old(cache.copies))
  {
    hide Afresh, Slot, Overlaid, CapacityAfter, RoundsOf;
    var buf := ReceiveAll(aux, q.earlier + [q.info]);
    var hit := cache.DescCacheLookup(q.text, buf, |q.info|, m.slots);
    if hit.Some? {
      return buf, hit;
    }
    aux', r := CompleteSQLDescribe(buf, q, cache.charset);
    if r.Some? {
      cache.DescCacheStore(q.text, buf, |q.info|, r.value, m.slots);
    }
  }

  /**
   * Any run of queries through one cache and one response buffer: an answer is what describing the statement
   * afresh would have given, exactly unless the query is confused with an earlier one.
   */
  method Run(charset: int, queries: seq<Query>) returns (results: seq<Option<Described>>)
    ensures |results| == |queries|
    ensures forall i :: 0 <= i < |queries| ==> results[i] == Remembered(queries[..i], charset).Result(queries[i], charset)
    ensures forall i :: 0 <= i < |queries| ==>
      (results[i] == Afresh(queries[i], charset) <==> !Confused(queries[..i], queries[i], charset))
  {
    hide Afresh, Memory.Result, Memory.After, Confused;
    var cache := new Cache(charset);
    var aux := new byte[AUX_CAPACITY];
    results := [];
    for i := 0 to |queries|
      invariant cache.Holds(Remembered(queries[..i], charset).slots) && cache.charset == charset && |results| == i
      invariant aux.Length == Remembered(queries[..i], charset).capacity
      invariant fresh(cache) && fresh(cache.slots) && fresh(cache.copies) && fresh(aux) && aux !in cache.copies
      invariant forall k :: 0 <= k < i ==> results[k] == Remembered(queries[..k], charset).Result(queries[k], charset)
    {
      var r;
      aux, r := DescribeQuery(cache, aux, queries[i], Remembered(queries[..i], charset));
      assert queries[..i + 1][..i] == queries[..i] && queries[..i + 1][i] == queries[i];
      results := results + [r];
    }
    forall i | 0 <= i < |queries|
      ensures results[i] == Afresh(queries[i], charset) <==> !Confused(queries[..i], queries[i], charset)
    {
      ConfusedExactly(queries[..i], queries[i], charset);
    }
  }
}
