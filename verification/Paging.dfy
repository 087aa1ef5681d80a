/** Listing operations page by page, newest first, while new rows arrive. An id is a
    number here; the module OperationIds relates numbers to the texts they are written as. */
module Paging {
  import opened Collections

  const DEFAULT_LIMIT := 20
  const MAX_LIMIT := 100

  predicate Before(cursor: Option<nat>, id: nat) { cursor.None? || id < cursor.value }

  predicate Falling(ids: seq<nat>) { forall i, j | 0 <= i < j < |ids| :: ids[i] > ids[j] }

  /** A page, by what it must be: in order, from the rows before the cursor, no more than the
      limit, nothing skipped, and a cursor exactly when something is left. */
  ghost predicate IsPage(rows: set<nat>, cursor: Option<nat>, limit: nat, items: seq<nat>, next: Option<nat>) {
    && |items| <= limit && Falling(items)
    && (forall i | 0 <= i < |items| :: items[i] in rows && Before(cursor, items[i]))
    && (forall id | id in rows && Before(cursor, id) && id !in items :: next.Some? && id < next.value)
    && (next.Some? ==> && |items| == limit > 0 && next.value == items[limit - 1]
                       && exists id :: id in rows && id < next.value)
  }

  /** The query: up to n rows before the cursor, highest id first. */
  method Query(rows: set<nat>, cursor: Option<nat>, n: nat) returns (out: seq<nat>)
    ensures |out| <= n && Falling(out)
    ensures forall i | 0 <= i < |out| :: out[i] in rows && Before(cursor, out[i])
    ensures forall id | id in rows && Before(cursor, id) && id !in out :: |out| == n && forall i | 0 <= i < n ::
        id < out[i]
  {
    out := [];
    var left := set id | id in rows && Before(cursor, id);
    while |out| < n && left != {}
      invariant |out| <= n && Falling(out)
      invariant forall i | 0 <= i < |out| :: out[i] in rows && Before(cursor, out[i])
      invariant forall id | id in left :: id in rows && Before(cursor, id) && forall i | 0 <= i < |out| :: id < out[i]
      invariant forall id | id in rows && Before(cursor, id) :: id in left || id in out
      decreases left
    {
      var top := Best(left, id => id);
      out := out + [top];
      left := left - {top};
    }
  }

  datatype Listing = Page(items: seq<nat>, next: Option<nat>) | InvalidLimit

  /** ListOperations over the rows that match the type asked for: one row more than the page
      tells whether there is another page. */
  method ListOperations(rows: set<nat>, cursor: Option<nat>, limit: int) returns (r: Listing)
    ensures r == InvalidLimit <==> limit < 0 || limit > 100
    ensures r.Page? ==> IsPage(rows, cursor, if limit == 0 then 20 else limit, r.items, r.next)
  {
    var n := if limit == 0 then DEFAULT_LIMIT else limit;
    if n < 1 || n > MAX_LIMIT {
      return InvalidLimit;
    }
    var out := Query(rows, cursor, n + 1);
    if |out| > n {
      var items := out[..n];
      assert out[n] in rows && out[n] < items[n - 1];
      forall id | id in rows && Before(cursor, id) && id !in items ensures id < items[n - 1] {
        if id in out { assert id == out[n]; }
      }
      return Page(items, Some(items[n - 1]));
    }
    return Page(out, None);
  }

  // ---- following the cursor ----

  /** The rows at the time of each page only grow. */
  ghost predicate Growing(tables: seq<set<nat>>) { forall i, j | 0 <= i <= j < |tables| :: tables[i] <= tables[j] }

  /** The pages got by starting at the cursor and following it to the end. */
  ghost predicate Follows(tables: seq<set<nat>>, pages: seq<Listing>, cursor: Option<nat>, limit: nat)
    decreases |pages|
  {
    && |pages| == |tables| > 0
    && pages[0].Page? && IsPage(tables[0], cursor, limit, pages[0].items, pages[0].next)
    && (pages[0].next.None? <==> |pages| == 1)
    && (|pages| > 1 ==> Follows(tables[1..], pages[1..], pages[0].next, limit))
  }

  function AllItems(pages: seq<Listing>): seq<nat> {
    if pages == [] then [] else (if pages[0].Page? then pages[0].items else []) + AllItems(pages[1..])
  }

  lemma FallingConcat(a: seq<nat>, b: seq<nat>)
    requires Falling(a) && Falling(b) && (forall i, j | 0 <= i < |a| && 0 <= j < |b| :: b[j] < a[i])
    ensures Falling(a + b)
  {
    var c := a + b;
    forall i, j | 0 <= i < j < |c| ensures c[i] > c[j] {
      if i < |a| <= j { assert b[j - |a|] < a[i]; }
    }
  }

  /** All pages together are in strictly falling order, from before the cursor. */
  lemma {:induction false} InOrder(tables: seq<set<nat>>, pages: seq<Listing>, cursor: Option<nat>, limit: nat)
    requires Follows(tables, pages, cursor, limit)
    ensures Falling(AllItems(pages)) && forall i | 0 <= i < |AllItems(pages)| :: Before(cursor, AllItems(pages)[i])
    decreases |pages|
  {
    var first, rest := pages[0].items, AllItems(pages[1..]);
    if |pages| > 1 {
      InOrder(tables[1..], pages[1..], pages[0].next, limit);
      forall i, j | 0 <= i < |first| && 0 <= j < |rest| ensures rest[j] < first[i] {
        assert Before(pages[0].next, rest[j]);
        assert i < |first| - 1 ==> first[i] > first[|first| - 1];
      }
      FallingConcat(first, rest);
    } else {
      assert rest == [] && AllItems(pages) == first;
    }
  }

  /** Every row there at the start is listed. */
  lemma {:induction false} NothingSkipped(tables: seq<set<nat>>, pages: seq<Listing>, cursor: Option<nat>, limit: nat,
      id: nat)
    requires Follows(tables, pages, cursor, limit) && Growing(tables) && id in tables[0] && Before(cursor, id)
    ensures id in AllItems(pages)
    decreases |pages|
  {
    if id !in pages[0].items {
      assert Growing(tables[1..]) by {
        forall i, j | 0 <= i <= j < |tables[1..]| ensures tables[1..][i] <= tables[1..][j] {
          assert tables[i + 1] <= tables[j + 1];
        }
      }
      assert tables[0] <= tables[1];
      NothingSkipped(tables[1..], pages[1..], pages[0].next, limit, id);
    }
  }

  lemma OnceAtMost(ids: seq<nat>, id: nat)
    requires Falling(ids)
    ensures multiset(ids)[id] <= 1
  {
    if ids != [] {
      var last := |ids| - 1;
      assert ids == ids[..last] + [ids[last]];
      OnceAtMost(ids[..last], id);
      if ids[last] == id { assert id !in ids[..last]; }
    }
  }

  /** Following the cursor from the start lists every row that was there then exactly once,
      newest first, whatever rows arrive in between. */
  lemma EveryRowOnce(tables: seq<set<nat>>, pages: seq<Listing>, limit: nat, id: nat)
    requires Follows(tables, pages, None, limit) && Growing(tables) && id in tables[0]
    ensures Falling(AllItems(pages)) && multiset(AllItems(pages))[id] == 1
  {
    InOrder(tables, pages, None, limit);
    NothingSkipped(tables, pages, None, limit, id);
    OnceAtMost(AllItems(pages), id);
  }

  /** Following ends: each cursor is below the one before it. */
  lemma CursorFalls(rows: set<nat>, cursor: Option<nat>, limit: nat, items: seq<nat>, next: Option<nat>)
    requires IsPage(rows, cursor, limit, items, next) && next.Some?
    ensures Before(cursor, next.value)
  {}
}

/** The texts of operation ids: the layout of section 5.7 of RFC 9562. */
module OperationIds {

  /** ms >> 8k. */
  function Shifted(ms: nat, k: nat): nat
    decreases k
  {
    if k == 0 then ms else Shifted(ms / 256, k - 1)
  }

  /** byte(ms >> 8k). */
  function ByteAt(ms: nat, k: nat): (b: nat)
    ensures b < 256
  {
    Shifted(ms, k) % 256
  }

  const HEX := "0123456789abcdef"

  /** hex.EncodeToString. */
  function Hex(bytes: seq<nat>): (h: string)
    requires forall i | 0 <= i < |bytes| :: bytes[i] < 256
    ensures |h| == 2 * |bytes|
  {
    if bytes == [] then ""
    else
      var last := |bytes| - 1;
      Hex(bytes[..last]) + [HEX[bytes[last] / 16], HEX[bytes[last] % 16]]
  }

  predicate HexDigit(c: char) { '0' <= c <= '9' || 'a' <= c <= 'f' }

  /** The digits of an id are exactly the sixteen lower-case ones. */
  lemma HexDigitsAreHex(c: char)
    ensures HexDigit(c) <==> c in "0123456789abcdef"
  {
    var n := if c <= '9' then c as int - '0' as int else c as int - 'a' as int + 10;
    if HexDigit(c) { assert "0123456789abcdef"[n] == c; }
  }

  /** ValidOperationID. */
  method Valid(id: string) returns (ok: bool)
    ensures ok <==> IsId(id)
  {
    if |id| != 36 {
      return false;
    }
    for i := 0 to 36
      invariant forall j | 0 <= j < i :: IdChar(j, id[j])
    {
      if !IdChar(i, id[i]) {
        return false;
      }
    }
    return true;
  }

  predicate IdChar(i: nat, c: char) { if i in {8, 13, 18, 23} then c == '-' else HexDigit(c) }

  predicate IsId(id: string) { |id| == 36 && forall i | 0 <= i < 36 :: IdChar(i, id[i]) }

  function Layout(h: string): string
    requires |h| == 32
  {
    h[0..8] + "-" + h[8..12] + "-" + h[12..16] + "-" + h[16..20] + "-" + h[20..32]
  }

  predicate RandomBytes(random: seq<nat>) { |random| == 10 && forall i | 0 <= i < 10 :: random[i] < 256 }

  function Stamp(ms: nat): (b: seq<nat>)
    ensures |b| == 6 && forall i | 0 <= i < 6 :: b[i] == ByteAt(ms, 5 - i)
  {
    [ByteAt(ms, 5), ByteAt(ms, 4), ByteAt(ms, 3), ByteAt(ms, 2), ByteAt(ms, 1), ByteAt(ms, 0)]
  }

  function IdBytes(ms: nat, random: seq<nat>): (b: seq<nat>)
    requires RandomBytes(random)
    ensures |b| == 16 && forall i | 0 <= i < 16 :: b[i] < 256
  {
    Stamp(ms) + [random[0] % 16 + 0x70, random[1], random[2] % 64 + 0x80] + random[3..]
  }

  function IdOf(ms: nat, random: seq<nat>): string
    requires RandomBytes(random)
  {
    Layout(Hex(IdBytes(ms, random)))
  }

  /** newOperationID, given the milliseconds and the random bytes. */
  method NewId(ms: nat, random: seq<nat>) returns (id: string)
    requires RandomBytes(random)
    ensures id == IdOf(ms, random) && IsId(id)
    // the version and the variant of the layout
    ensures id[14] == '7' && id[19] in "89ab"
  {
    var b := new nat[16](i requires 0 <= i < 16 => if i < 6 || |random| != 10 then 0 else random[i - 6]);
    var stamp := Stamp(ms);
    b[0], b[1], b[2], b[3], b[4], b[5] := stamp[0], stamp[1], stamp[2], stamp[3], stamp[4], stamp[5];
    b[6] := b[6] % 16 + 0x70;
    b[8] := b[8] % 64 + 0x80;
    Assembled(b[..], stamp, random);
    id := Layout(Hex(b[..]));
    IdIsValid(ms, random);
    VersionAndVariant(ms, random);
  }

  lemma Assembled(b: seq<nat>, stamp: seq<nat>, random: seq<nat>)
    requires |b| == 16 && |stamp| == 6 && |random| == 10
    requires forall i | 0 <= i < 6 :: b[i] == stamp[i]
    requires b[6] == random[0] % 16 + 0x70 && b[7] == random[1] && b[8] == random[2] % 64 + 0x80
    requires forall i | 9 <= i < 16 :: b[i] == random[i - 6]
    ensures b == stamp + [random[0] % 16 + 0x70, random[1], random[2] % 64 + 0x80] + random[3..]
  {}

  function Nibble(b: nat, i: nat): (n: nat)
    requires b < 256
    ensures n < 16
  {
    if i % 2 == 0 then b / 16 else b % 16
  }

  lemma {:induction false} HexPair(bytes: seq<nat>, p: nat)
    requires (forall j | 0 <= j < |bytes| :: bytes[j] < 256) && p < |bytes|
    ensures Hex(bytes)[2 * p] == HEX[Nibble(bytes[p], 0)] && Hex(bytes)[2 * p + 1] == HEX[Nibble(bytes[p], 1)]
  {
    var last := |bytes| - 1;
    if p < last { HexPair(bytes[..last], p); }
  }

  lemma HexAt(bytes: seq<nat>, i: nat)
    requires (forall j | 0 <= j < |bytes| :: bytes[j] < 256) && i < 2 * |bytes|
    ensures Hex(bytes)[i] == HEX[Nibble(bytes[i / 2], i)]
  {
    HexPair(bytes, i / 2);
    assert i == 2 * (i / 2) || i == 2 * (i / 2) + 1;
  }

  lemma HexIsHex(bytes: seq<nat>)
    requires forall i | 0 <= i < |bytes| :: bytes[i] < 256
    ensures forall i | 0 <= i < |Hex(bytes)| :: HexDigit(Hex(bytes)[i])
  {
    forall i | 0 <= i < |Hex(bytes)| ensures HexDigit(Hex(bytes)[i]) { HexAt(bytes, i); }
  }

  /** Every generated id has the shape that is asked of an id. */
  lemma IdIsValid(ms: nat, random: seq<nat>)
    requires RandomBytes(random)
    ensures IsId(IdOf(ms, random))
  {
    HexIsHex(IdBytes(ms, random));
    LayoutIsId(Hex(IdBytes(ms, random)));
  }

  lemma VersionAndVariant(ms: nat, random: seq<nat>)
    requires RandomBytes(random)
    ensures IdOf(ms, random)[14] == '7' && IdOf(ms, random)[19] in "89ab"
  {
    var bytes := IdBytes(ms, random);
    var h := Hex(bytes);
    HexPair(bytes, 6);
    HexPair(bytes, 8);
    assert bytes[6] / 16 == 7 && 8 <= bytes[8] / 16 < 12;
    assert Layout(h)[14] == h[12] && Layout(h)[19] == h[16];
    VariantDigits(bytes[8] / 16);
  }

  lemma VariantDigits(n: nat)
    requires 8 <= n < 12
    ensures HEX[n] in "89ab" && HEX[7] == '7'
  {
    assert n == 8 || n == 9 || n == 10 || n == 11;
    assert "89ab"[n - 8] == HEX[n];
  }

  lemma LayoutIsId(h: string)
    requires |h| == 32 && forall i | 0 <= i < 32 :: HexDigit(h[i])
    ensures IsId(Layout(h))
  {}

  // ---- order ----

  /** The order of texts. */
  predicate Less(a: string, b: string) {
    exists k | 0 <= k < |a| && k < |b| :: a[..k] == b[..k] && a[k] < b[k]
  }

  lemma {:induction false} ShiftedNext(ms: nat, k: nat)
    ensures Shifted(ms, k + 1) == Shifted(ms, k) / 256
    decreases k
  {
    if k > 0 { ShiftedNext(ms / 256, k - 1); }
  }

  lemma {:induction false} ShiftedOrder(a: nat, b: nat, k: nat)
    requires a <= b
    ensures Shifted(a, k) <= Shifted(b, k)
    decreases k
  {
    if k > 0 { ShiftedOrder(a / 256, b / 256, k - 1); }
  }

  /** The first byte that differs, counted from the highest, tells the order. */
  lemma {:induction false} FirstDifference(a: nat, b: nat, k: nat) returns (j: nat)
    requires a < b && Shifted(a, k) == Shifted(b, k)
    ensures j < k && ByteAt(a, j) < ByteAt(b, j) && forall i | j < i < k :: ByteAt(a, i) == ByteAt(b, i)
    decreases k
  {
    assert k > 0;
    if Shifted(a, k - 1) == Shifted(b, k - 1) {
      j := FirstDifference(a, b, k - 1);
    } else {
      j := k - 1;
      ShiftedOrder(a, b, j);
      ShiftedNext(a, j);
      ShiftedNext(b, j);
      ByteOrder(Shifted(a, j), Shifted(b, j));
    }
  }

  lemma ByteOrder(a: nat, b: nat)
    requires a < b && a / 256 == b / 256
    ensures a % 256 < b % 256
  {}

  lemma HexOrder(a: nat, b: nat)
    requires a < b < 16
    ensures HEX[a] < HEX[b]
  {}

  lemma LayoutAt(h: string, i: nat)
    requires |h| == 32 && i < 13
    ensures Layout(h)[i] == if i < 8 then h[i] else if i == 8 then '-' else h[i - 1]
  {}

  lemma HexPrefix(x: seq<nat>, y: seq<nat>, p: nat)
    requires |x| == |y| && p <= |x| && (forall i | 0 <= i < |x| :: x[i] < 256 && y[i] < 256)
    requires forall i | 0 <= i < p :: x[i] == y[i]
    ensures forall i | 0 <= i < 2 * p :: Hex(x)[i] == Hex(y)[i]
  {
    forall i | 0 <= i < 2 * p ensures Hex(x)[i] == Hex(y)[i] {
      HexAt(x, i);
      HexAt(y, i);
    }
  }

  /** Texts of bytes are ordered as the bytes are. */
  lemma BytesOrder(x: seq<nat>, y: seq<nat>, p: nat) returns (k: nat)
    requires |x| == |y| && p < |x| && (forall i | 0 <= i < |x| :: x[i] < 256 && y[i] < 256)
    requires (forall i | 0 <= i < p :: x[i] == y[i]) && x[p] < y[p]
    ensures k < 2 * p + 2 && (forall i | 0 <= i < k :: Hex(x)[i] == Hex(y)[i]) && Hex(x)[k] < Hex(y)[k]
  {
    HexPrefix(x, y, p);
    HexPair(x, p);
    HexPair(y, p);
    NibbleOrder(x[p], y[p]);
    if Nibble(x[p], 0) < Nibble(y[p], 0) {
      k := 2 * p;
      HexOrder(Nibble(x[p], 0), Nibble(y[p], 0));
    } else {
      k := 2 * p + 1;
      HexOrder(Nibble(x[p], 1), Nibble(y[p], 1));
    }
  }

  lemma NibbleOrder(a: nat, b: nat)
    requires a < b < 256
    ensures Nibble(a, 0) < Nibble(b, 0) || (Nibble(a, 0) == Nibble(b, 0) && Nibble(a, 1) < Nibble(b, 1))
  {}

  /** Ids made in different milliseconds are ordered as texts by their milliseconds, whatever
      the random bytes, until the 48 bits run out. */
  lemma OrderedByTime(a: nat, b: nat, x: seq<nat>, y: seq<nat>)
    requires a < b < 0x1_0000_0000_0000 && RandomBytes(x) && RandomBytes(y)
    ensures Less(IdOf(a, x), IdOf(b, y))
  {
    FitsStamp(a);
    FitsStamp(b);
    var j := FirstDifference(a, b, 6);
    var p := 5 - j;
    var u, v := IdBytes(a, x), IdBytes(b, y);
    assert forall i | 0 <= i < 6 :: u[i] == Stamp(a)[i] && v[i] == Stamp(b)[i];
    var k := BytesOrder(u, v, p);
    LayoutOrder(Hex(u), Hex(v), k);
  }

  lemma FitsStamp(ms: nat)
    requires ms < 0x1_0000_0000_0000
    ensures Shifted(ms, 6) == 0
  {
    assert ms / 256 < 0x100_0000_0000;
    assert ms / 256 / 256 < 0x1_0000_0000;
    assert ms / 256 / 256 / 256 < 0x100_0000;
    assert Shifted(ms, 6) == Shifted(ms / 256 / 256 / 256, 3);
  }

  lemma LayoutOrder(g: string, h: string, k: nat)
    requires |g| == 32 == |h| && k < 12 && (forall i | 0 <= i < k :: g[i] == h[i]) && g[k] < h[k]
    ensures Less(Layout(g), Layout(h))
  {
    var n := if k < 8 then k else k + 1;
    var a, b := Layout(g), Layout(h);
    forall i | 0 <= i <= n ensures a[i] < b[i] <==> i == n
      ensures i < n ==> a[i] == b[i]
    {
      LayoutAt(g, i);
      LayoutAt(h, i);
    }
    assert a[..n] == b[..n];
  }
}
