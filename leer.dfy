// leer.py: dump a MIFARE Classic 1K card block by block, trying every candidate
// key first as Key A and then as Key B.

module Leer {
  import opened Driver
  import opened Authenticate

  /** A candidate key: its hexadecimal label and its bytes. */
  datatype KeyEntry = KeyEntry(hex: string, bytes: seq<byte>)

  /** The configured candidates, in trial order. */
  const Keys: seq<KeyEntry> := [
    KeyEntry("D3F7D3F7D3F7", [0xD3, 0xF7, 0xD3, 0xF7, 0xD3, 0xF7]),
    KeyEntry("A0A1A2A3A4A5", [0xA0, 0xA1, 0xA2, 0xA3, 0xA4, 0xA5]),
    KeyEntry("FFFFFFFFFFFF", [0xFF, 0xFF, 0xFF, 0xFF, 0xFF, 0xFF]),
    KeyEntry("000000000000", [0x00, 0x00, 0x00, 0x00, 0x00, 0x00])
  ]

  predicate IsPrintable(c: byte)
  {
    32 <= c <= 126
  }

  /** Renders bytes as text, one character per byte, with '.' for every byte outside 32..126. */
  function Printable(b: seq<byte>): (s: string)
    ensures |s| == |b|
    ensures forall i :: 0 <= i < |b| ==> (IsPrintable(b[i]) ==> s[i] as int == b[i] as int)
    ensures forall i :: 0 <= i < |b| ==> (!IsPrintable(b[i]) ==> s[i] == '.')
    ensures forall i :: 0 <= i < |s| ==> 32 <= s[i] as int <= 126
  {
    if b == [] then ""
    else [if IsPrintable(b[0]) then b[0] as int as char else '.'] + Printable(b[1..])
  }

  /** The bytes of a text made only of characters 0..255. */
  function Bytes(s: string): seq<byte>
    requires forall i :: 0 <= i < |s| ==> s[i] as int < 256
  {
    seq(|s|, i requires 0 <= i < |s| => s[i] as int as byte)
  }

  /** Rendering is idempotent: rendering the bytes of a rendering gives the same text,
    * and a block of printable bytes is rendered as exactly those bytes. */
  lemma PrintableRoundTrip(b: seq<byte>)
    ensures Printable(Bytes(Printable(b))) == Printable(b)
    ensures (forall i :: 0 <= i < |b| ==> IsPrintable(b[i])) ==> Bytes(Printable(b)) == b
  {
  }

  /** `try_authenticate` of leer.py: the key types for the label, tried in order. */
  method TryAuthenticate(auth: AuthDriver, block: int, key: seq<byte>, keyLabel: char)
    returns (ok: bool, trace: seq<Attempt>)
    ensures trace == Attempts(auth, block, key, KeyTypesFor(keyLabel))
    ensures ok == Authenticates(trace)
  {
    var keyTypes := KeyTypesFor(keyLabel);
    ok, trace := TryKeyTypes(auth, block, key, keyTypes);
  }

  /** One (key, slot) pair of the per-block search: an index into the key list and 'A' or 'B'. */
  datatype Pair = Pair(keyIndex: nat, keyLabel: char)

  /** The full trial order over n keys: (K1,A), (K1,B), (K2,A), (K2,B), ... */
  function Plan(n: nat): (p: seq<Pair>)
    ensures |p| == 2 * n
  {
    if n == 0 then [] else Plan(n - 1) + [Pair(n - 1, 'A'), Pair(n - 1, 'B')]
  }

  /** Pair j of the trial order uses key j / 2, as Key A when j is even and as Key B when j is odd. */
  lemma {:induction false} PlanAt(n: nat, j: nat)
    requires j < 2 * n
    ensures Plan(n)[j] == Pair(j / 2, if j % 2 == 0 then 'A' else 'B')
  {
    if j < 2 * (n - 1) {
      PlanAt(n - 1, j);
    }
  }

  /** The trial order over fewer keys is a prefix of the one over more keys. */
  lemma {:induction false} PlanPrefix(m: nat, n: nat)
    requires m <= n
    ensures Plan(m) <= Plan(n)
    decreases n
  {
    if m < n {
      PlanPrefix(m, n - 1);
    }
  }

  /** Key i authenticates under Key A or Key B. */
  predicate KeyWorks(auth: AuthDriver, block: int, keys: seq<KeyEntry>, i: nat)
    requires i < |keys|
  {
    AuthenticatesAs(auth, block, keys[i].bytes, 'A') || AuthenticatesAs(auth, block, keys[i].bytes, 'B')
  }

  /** The first key, from index `from` on, that authenticates `block` under either slot. */
  function FirstKey(auth: AuthDriver, block: int, keys: seq<KeyEntry>, from: nat): (r: Option<nat>)
    decreases |keys| - from
    ensures r.Some? ==> from <= r.value < |keys| && KeyWorks(auth, block, keys, r.value)
  {
    if from >= |keys| then None
    else if KeyWorks(auth, block, keys, from) then Some(from)
    else FirstKey(auth, block, keys, from + 1)
  }

  /** `FirstKey` finds the least working key: a key from `from` on that comes before the
    * one found, or any such key when none is found, does not work. */
  lemma {:induction false} FirstKeyIsLeast(auth: AuthDriver, block: int, keys: seq<KeyEntry>, from: nat, i: nat)
    requires from <= i < |keys|
    requires FirstKey(auth, block, keys, from).None? || i < FirstKey(auth, block, keys, from).value
    ensures !KeyWorks(auth, block, keys, i)
    decreases i - from
  {
    if from < i {
      assert !KeyWorks(auth, block, keys, from);
      FirstKeyIsLeast(auth, block, keys, from + 1, i);
    }
  }

  /** The driver calls of `try_authenticate` for each pair: key `keyIndex` under its slot. */
  function PairCalls(auth: AuthDriver, block: int, keys: seq<KeyEntry>): Pair -> seq<Attempt>
  {
    (p: Pair) => if p.keyIndex < |keys| then Attempts(auth, block, keys[p.keyIndex].bytes, KeyTypesFor(p.keyLabel)) else []
  }

  /** The calls made for the pairs `tried`, in order, when pair p makes the calls `pairCalls(p)`. */
  function CallsOf(pairCalls: Pair -> seq<Attempt>, tried: seq<Pair>): seq<Attempt>
  {
    if tried == [] then [] else CallsOf(pairCalls, tried[..|tried| - 1]) + pairCalls(tried[|tried| - 1])
  }

  lemma CallsOfSnoc(pairCalls: Pair -> seq<Attempt>, tried: seq<Pair>, p: Pair)
    ensures CallsOf(pairCalls, tried + [p]) == CallsOf(pairCalls, tried) + pairCalls(p)
  {
  }

  /** The calls made for key i when the search stops at it with `slot`, or goes past it. */
  function SlotCalls(pairCalls: Pair -> seq<Attempt>, i: nat, slot: char): seq<Attempt>
  {
    if slot == 'A' then pairCalls(Pair(i, 'A')) else pairCalls(Pair(i, 'A')) + pairCalls(Pair(i, 'B'))
  }

  /** Appending the pairs of key i to the tried pairs appends their calls to the calls made. */
  lemma CallsOfSlotPairs(pairCalls: Pair -> seq<Attempt>, tried: seq<Pair>, i: nat, slot: char)
    ensures CallsOf(pairCalls, tried + SlotPairs(i, slot)) == CallsOf(pairCalls, tried) + SlotCalls(pairCalls, i, slot)
  {
    var a, ca, cb := CallsOf(pairCalls, tried), pairCalls(Pair(i, 'A')), pairCalls(Pair(i, 'B'));
    var withA := tried + [Pair(i, 'A')];
    CallsOfSnoc(pairCalls, tried, Pair(i, 'A'));
    if slot == 'A' {
      assert tried + SlotPairs(i, slot) == withA;
    } else {
      assert tried + SlotPairs(i, slot) == withA + [Pair(i, 'B')];
      CallsOfSnoc(pairCalls, withA, Pair(i, 'B'));
      assert (a + ca) + cb == a + (ca + cb);
    }
  }


  /** What the search over one block leaves behind: the pairs tried and the driver calls made,
    * the bookkeeping variables `used_key`, `used_key_type` and `read_success`, and the
    * outcome of the read. */
  datatype BlockReport = BlockReport(
    block: int,
    tried: seq<Pair>,
    calls: seq<Attempt>,
    usedKey: Option<string>,
    usedKeyType: Option<char>,
    read: Option<ReadOutcome>,
    readSuccess: bool)

  /** The search of `block` with `keys`: pairs in trial order up to the first key that works,
    * that key as Key A if it works so, as Key B otherwise, and a single read after that. */
  function Report(auth: AuthDriver, reader: ReadDriver, block: int, keys: seq<KeyEntry>): BlockReport
  {
    match FirstKey(auth, block, keys, 0)
    case None =>
      BlockReport(block, Plan(|keys|), CallsOf(PairCalls(auth, block, keys), Plan(|keys|)), None, None, None, false)
    case Some(i) =>
      var slot := if AuthenticatesAs(auth, block, keys[i].bytes, 'A') then 'A' else 'B';
      var tried := TriedUpTo(i, slot);
      BlockReport(block, tried, CallsOf(PairCalls(auth, block, keys), tried),
        Some(keys[i].hex), Some(slot), Some(reader(block)), reader(block).Data?)
  }

  /** The pairs tried after key i worked: the full order up to key i, then key i as Key A,
    * and as Key B too when Key A did not authenticate. */
  function TriedUpTo(i: nat, slot: char): seq<Pair>
  {
    Plan(i) + SlotPairs(i, slot)
  }

  /** The pairs of key i tried in a search that stops at key i with `slot`. */
  function SlotPairs(i: nat, slot: char): seq<Pair>
  {
    if slot == 'A' then [Pair(i, 'A')] else [Pair(i, 'A'), Pair(i, 'B')]
  }

  /** The loop state of the search after keys 0..i-1 all failed: every pair of those keys
    * was tried, the calls are theirs, and the first working key is not among them. */
  predicate SearchedUpTo(auth: AuthDriver, block: int, keys: seq<KeyEntry>, i: nat,
                         tried: seq<Pair>, calls: seq<Attempt>)
  {
    i <= |keys| && tried == Plan(i) && calls == CallsOf(PairCalls(auth, block, keys), tried) &&
    FirstKey(auth, block, keys, 0) == FirstKey(auth, block, keys, i)
  }

  /** Key i failed under both slots: the search moves on to key i + 1. */
  lemma SearchAdvance(auth: AuthDriver, block: int, keys: seq<KeyEntry>, i: nat,
                      tried: seq<Pair>, calls: seq<Attempt>, trace: seq<Attempt>)
    requires SearchedUpTo(auth, block, keys, i, tried, calls)
    requires i < |keys| && !KeyWorks(auth, block, keys, i)
    requires trace == SlotCalls(PairCalls(auth, block, keys), i, 'B')
    ensures SearchedUpTo(auth, block, keys, i + 1, tried + SlotPairs(i, 'B'), calls + trace)
  {
    CallsOfSlotPairs(PairCalls(auth, block, keys), tried, i, 'B');
  }

  /** Key i works: the search stops there, and what it leaves behind is the report. */
  lemma SearchFound(auth: AuthDriver, reader: ReadDriver, block: int, keys: seq<KeyEntry>, i: nat,
                    slot: char, tried: seq<Pair>, calls: seq<Attempt>, trace: seq<Attempt>)
    requires SearchedUpTo(auth, block, keys, i, tried, calls)
    requires i < |keys| && KeyWorks(auth, block, keys, i)
    requires slot == if AuthenticatesAs(auth, block, keys[i].bytes, 'A') then 'A' else 'B'
    requires trace == SlotCalls(PairCalls(auth, block, keys), i, slot)
    ensures Report(auth, reader, block, keys) ==
      BlockReport(block, tried + SlotPairs(i, slot), calls + trace,
        Some(keys[i].hex), Some(slot), Some(reader(block)), reader(block).Data?)
  {
    CallsOfSlotPairs(PairCalls(auth, block, keys), tried, i, slot);
  }

  /** Every key failed: the report records the whole trial order and no read. */
  lemma SearchDone(auth: AuthDriver, reader: ReadDriver, block: int, keys: seq<KeyEntry>,
                   tried: seq<Pair>, calls: seq<Attempt>)
    requires SearchedUpTo(auth, block, keys, |keys|, tried, calls)
    ensures Report(auth, reader, block, keys) == BlockReport(block, tried, calls, None, None, None, false)
  {
  }

  /** Exhaustion: no key is used exactly when no key authenticates under either slot; then
    * every pair of the trial order was tried and the block was not read. The block is read
    * exactly when a key was used, and `read_success` holds exactly when that read returned data. */
  lemma SearchExhausted(auth: AuthDriver, reader: ReadDriver, block: int, keys: seq<KeyEntry>)
    ensures var r := Report(auth, reader, block, keys);
      r.usedKey.None? <==>
        forall i :: 0 <= i < |keys| ==>
          !AuthenticatesAs(auth, block, keys[i].bytes, 'A') && !AuthenticatesAs(auth, block, keys[i].bytes, 'B')
    ensures var r := Report(auth, reader, block, keys);
      r.usedKey.None? ==> r.tried == Plan(|keys|) && r.usedKeyType.None?
    ensures var r := Report(auth, reader, block, keys);
      r.block == block && (r.read.Some? <==> r.usedKey.Some?) && (r.read.Some? ==> r.read.value == reader(block))
    ensures var r := Report(auth, reader, block, keys);
      r.readSuccess <==> r.usedKey.Some? && reader(block).Data?
  {
    match FirstKey(auth, block, keys, 0)
    case None =>
      forall i | 0 <= i < |keys|
        ensures !AuthenticatesAs(auth, block, keys[i].bytes, 'A') && !AuthenticatesAs(auth, block, keys[i].bytes, 'B')
      {
        FirstKeyIsLeast(auth, block, keys, 0, i);
      }
    case Some(i) =>
      assert KeyWorks(auth, block, keys, i);
  }

  /** The pairs tried when the search stops at key i are a prefix of the trial order over
    * any longer key list. */
  lemma TriedUpToPrefix(i: nat, slot: char, n: nat)
    requires i < n
    ensures TriedUpTo(i, slot) <= Plan(n)
  {
    PlanPrefix(i + 1, n);
    assert Plan(i + 1) == Plan(i) + [Pair(i, 'A'), Pair(i, 'B')];
    assert TriedUpTo(i, slot) <= Plan(i + 1);
  }

  /** Trial order for one block: the pairs tried are a prefix of (K1,A), (K1,B), (K2,A), .... */
  lemma SearchTriedInOrder(auth: AuthDriver, reader: ReadDriver, block: int, keys: seq<KeyEntry>)
    ensures Report(auth, reader, block, keys).tried <= Plan(|keys|)
  {
    var first := FirstKey(auth, block, keys, 0);
    if first.Some? {
      var i := first.value;
      TriedUpToPrefix(i, if AuthenticatesAs(auth, block, keys[i].bytes, 'A') then 'A' else 'B', |keys|);
    }
  }

  /** First match for one block: when a key is used, the last pair tried authenticates and
    * `used_key`/`used_key_type` name it. */
  lemma SearchFirstMatch(auth: AuthDriver, reader: ReadDriver, block: int, keys: seq<KeyEntry>)
    requires Report(auth, reader, block, keys).usedKey.Some?
    ensures var r := Report(auth, reader, block, keys);
      var k := |r.tried| - 1;
      0 <= k && r.tried[k].keyIndex < |keys| &&
      AuthenticatesAs(auth, block, keys[r.tried[k].keyIndex].bytes, r.tried[k].keyLabel) &&
      r.usedKey == Some(keys[r.tried[k].keyIndex].hex) && r.usedKeyType == Some(r.tried[k].keyLabel)
  {
  }

  /** A pair of the trial order before the first working key fails. */
  lemma PlanPairFails(auth: AuthDriver, block: int, keys: seq<KeyEntry>, i: nat, j: nat)
    requires FirstKey(auth, block, keys, 0) == Some(i) && j < |Plan(i)|
    ensures Plan(i)[j].keyIndex < |keys|
    ensures !AuthenticatesAs(auth, block, keys[Plan(i)[j].keyIndex].bytes, Plan(i)[j].keyLabel)
  {
    PlanAt(i, j);
    FirstKeyIsLeast(auth, block, keys, 0, j / 2);
  }

  /** Every pair tried before key i, the first working key, fails. */
  lemma TriedBeforeFail(auth: AuthDriver, block: int, keys: seq<KeyEntry>, i: nat, slot: char)
    requires FirstKey(auth, block, keys, 0) == Some(i)
    requires slot == if AuthenticatesAs(auth, block, keys[i].bytes, 'A') then 'A' else 'B'
    ensures forall j :: 0 <= j < |TriedUpTo(i, slot)| - 1 ==>
      TriedUpTo(i, slot)[j].keyIndex < |keys| &&
      !AuthenticatesAs(auth, block, keys[TriedUpTo(i, slot)[j].keyIndex].bytes, TriedUpTo(i, slot)[j].keyLabel)
  {
    var tried := TriedUpTo(i, slot);
    forall j | 0 <= j < |tried| - 1
      ensures tried[j].keyIndex < |keys| &&
        !AuthenticatesAs(auth, block, keys[tried[j].keyIndex].bytes, tried[j].keyLabel)
    {
      if j < |Plan(i)| {
        assert tried[j] == Plan(i)[j];
        PlanPairFails(auth, block, keys, i, j);
      } else {
        assert tried[j] == Pair(i, 'A');
      }
    }
  }

  /** ... and every pair tried before it failed. */
  lemma SearchEarlierPairsFail(auth: AuthDriver, reader: ReadDriver, block: int, keys: seq<KeyEntry>)
    requires Report(auth, reader, block, keys).usedKey.Some?
    ensures var r := Report(auth, reader, block, keys);
      forall j :: 0 <= j < |r.tried| - 1 ==>
        r.tried[j].keyIndex < |keys| &&
        !AuthenticatesAs(auth, block, keys[r.tried[j].keyIndex].bytes, r.tried[j].keyLabel)
  {
    var i := FirstKey(auth, block, keys, 0).value;
    TriedBeforeFail(auth, block, keys, i, if AuthenticatesAs(auth, block, keys[i].bytes, 'A') then 'A' else 'B');
  }

  /** One key of the per-block search: `try_authenticate` as Key A and, when that fails, as
    * Key B. `slot` names the slot that authenticated, if any, and `trace` holds the driver
    * calls made. */
  method SearchKey(auth: AuthDriver, block: int, keys: seq<KeyEntry>, i: nat)
    returns (slot: Option<char>, trace: seq<Attempt>)
    requires i < |keys|
    ensures slot.Some? <==> KeyWorks(auth, block, keys, i)
    ensures slot.Some? ==> slot.value == if AuthenticatesAs(auth, block, keys[i].bytes, 'A') then 'A' else 'B'
    ensures trace == SlotCalls(PairCalls(auth, block, keys), i, if slot == Some('A') then 'A' else 'B')
  {
    var okA, traceA := TryAuthenticate(auth, block, keys[i].bytes, 'A');
    if okA {
      slot, trace := Some('A'), traceA;
      return;
    }
    var okB, traceB := TryAuthenticate(auth, block, keys[i].bytes, 'B');
    slot := if okB then Some('B') else None;
    trace := traceA + traceB;
    assert traceA + [] == traceA;
  }

  /** The per-block key/slot search of `main`: each key as Key A, then as Key B; the first
    * authentication ends the search, and the block is then read once. */
  method SearchBlock(auth: AuthDriver, reader: ReadDriver, block: int, keys: seq<KeyEntry>)
    returns (report: BlockReport)
    ensures report == Report(auth, reader, block, keys)
  {
    var tried: seq<Pair> := [];
    var calls: seq<Attempt> := [];
    var i := 0;
    while i < |keys|
      invariant SearchedUpTo(auth, block, keys, i, tried, calls)
      decreases |keys| - i
    {
      var slot, trace := SearchKey(auth, block, keys, i);
      if slot.Some? {
        var data := reader(block);
        var readSuccess := data.Data?;
        SearchFound(auth, reader, block, keys, i, slot.value, tried, calls, trace);
        report := BlockReport(block, tried + SlotPairs(i, slot.value), calls + trace,
          Some(keys[i].hex), slot, Some(data), readSuccess);
        return;
      }
      SearchAdvance(auth, block, keys, i, tried, calls, trace);
      tried := tried + SlotPairs(i, 'B');
      calls := calls + trace;
      i := i + 1;
    }
    SearchDone(auth, reader, block, keys, tried, calls);
    report := BlockReport(block, tried, calls, None, None, None, false);
  }

  /** The search of each block with `keys`. */
  function BlockSearch(auth: AuthDriver, reader: ReadDriver, keys: seq<KeyEntry>): int -> BlockReport
  {
    (b: int) => Report(auth, reader, b, keys)
  }

  /** The reports `search(0)`, ..., `search(n - 1)` of blocks 0..n-1, in block order. */
  function Scan(search: int -> BlockReport, n: nat): (s: seq<BlockReport>)
    ensures |s| == n
  {
    seq(n, b => search(b))
  }

  /** Report n of a scan of `count` blocks is the search of block n, and it is for block n. */
  lemma ScanReportAt(auth: AuthDriver, reader: ReadDriver, keys: seq<KeyEntry>, count: nat, n: nat)
    requires n < count
    ensures Scan(BlockSearch(auth, reader, keys), count)[n] == Report(auth, reader, n, keys)
    ensures Scan(BlockSearch(auth, reader, keys), count)[n].block == n
  {
    SearchExhausted(auth, reader, n, keys);
  }

  /** The card dump of `main`. A MIFARE Classic 1K card has 16 sectors of 4 blocks; for
    * sector 0..15 and block 0..3 of the sector, `main` runs the search of
    * block `sector * 4 + b`. Every block 0..63 is searched exactly once, in increasing order. */
  method ScanCard(auth: AuthDriver, reader: ReadDriver, keys: seq<KeyEntry>)
    returns (reports: seq<BlockReport>)
    ensures |reports| == 64
    ensures reports == Scan(BlockSearch(auth, reader, keys), |reports|)
  {
    reports := [];
    var sector := 0;
    while sector < 16
      invariant 0 <= sector <= 16
      invariant |reports| == sector * 4
      invariant reports == Scan(BlockSearch(auth, reader, keys), |reports|)
    {
      var sectorBaseBlock := sector * 4;
      var b := 0;
      while b < 4
        invariant 0 <= b <= 4
        invariant |reports| == sectorBaseBlock + b
        invariant reports == Scan(BlockSearch(auth, reader, keys), |reports|)
      {
        var blockNum := sectorBaseBlock + b;
        var report := SearchBlock(auth, reader, blockNum, keys);
        reports := reports + [report];
        b := b + 1;
      }
      sector := sector + 1;
    }
  }

  /** The script's own run: the card dump with its four candidate keys. At most the eight
    * pairs (K1,A), (K1,B), ..., (K4,B) are tried on a block. */
  method ScanConfiguredCard(auth: AuthDriver, reader: ReadDriver) returns (reports: seq<BlockReport>)
    ensures |reports| == 64
    ensures reports == Scan(BlockSearch(auth, reader, Keys), |reports|)
    ensures forall n :: 0 <= n < |reports| ==> reports[n].tried <= Plan(|Keys|) && |reports[n].tried| <= 8
  {
    reports := ScanCard(auth, reader, Keys);
    forall n | 0 <= n < |reports|
      ensures reports[n].tried <= Plan(|Keys|) && |reports[n].tried| <= 8
    {
      ScanReportAt(auth, reader, Keys, |reports|, n);
      SearchTriedInOrder(auth, reader, n, Keys);
    }
  }
}
