/** The file allocation table as get_fat and put_fat see it: packed entries of 12, 16
    or 32 bits in the sectors of the FAT area. */
module FatTable {
  import opened Arith
  import opened Bytes

  const SS: nat := 512

  type Sector = s: seq<byte> | |s| == SS witness seq(SS, i => 0)

  datatype FsType = Fat12 | Fat16 | Fat32

  const MAX_FAT12: nat := 0xFF5
  const MAX_FAT16: nat := 0xFFF5
  const MAX_FAT32: nat := 0x0FFFFFF5

  /** The largest number of entries a table of each type may have. */
  function MaxEntries(t: FsType): nat {
    match t case Fat12 => MAX_FAT12 + 2 case Fat16 => MAX_FAT16 + 2 case Fat32 => MAX_FAT32 + 2
  }

  /** The size in bytes mount_volume demands for a table of n entries. */
  function TableBytes(t: FsType, n: nat): nat {
    match t case Fat12 => n * 3 / 2 + n % 2 case Fat16 => n * 2 case Fat32 => n * 4
  }

  /** Byte i of the FAT area. */
  function ByteAt(fat: seq<Sector>, i: nat): byte
    requires i < SS * |fat|
  {
    fat[i / SS][i % SS]
  }

  function PutByte(fat: seq<Sector>, i: nat, b: byte): (r: seq<Sector>)
    requires i < SS * |fat|
    ensures |r| == |fat|
  {
    fat[i / SS := fat[i / SS][i % SS := b]]
  }

  lemma PutByteAt(fat: seq<Sector>, i: nat, b: byte, j: nat)
    requires i < SS * |fat| && j < SS * |fat|
    ensures ByteAt(PutByte(fat, i, b), j) == if i == j then b else ByteAt(fat, j)
  {
    if i / SS == j / SS && i % SS == j % SS {
      assert i == j;
    }
  }

  /** The first byte of entry c. */
  function Offset(t: FsType, c: nat): nat {
    match t case Fat12 => c + c / 2 case Fat16 => c * 2 case Fat32 => c * 4
  }

  function Width(t: FsType): nat {
    match t case Fat12 => 2 case Fat16 => 2 case Fat32 => 4
  }

  lemma OffsetFits(t: FsType, n: nat, c: nat)
    requires c < n
    ensures Offset(t, c) + Width(t) <= TableBytes(t, n)
  {
  }

  // The value get_fat extracts from the bytes of an entry.

  function Of12(a: byte, b: byte, c: nat): nat {
    var w := a as nat + 0x100 * b as nat;
    if c % 2 == 1 then w / 16 else w % 0x1000
  }

  function Of16(a: byte, b: byte): nat {
    a as nat + 0x100 * b as nat
  }

  function Of32(a: byte, b: byte, c: byte, d: byte): nat {
    a as nat + 0x100 * b as nat + 0x10000 * c as nat + 0x1000000 * (d as nat % 16)
  }

  /** What get_fat returns for an entry in range. */
  function Entry(t: FsType, fat: seq<Sector>, c: nat): nat
    requires Offset(t, c) + Width(t) <= SS * |fat|
  {
    var i := Offset(t, c);
    match t
    case Fat12 => Of12(ByteAt(fat, i), ByteAt(fat, i + 1), c)
    case Fat16 => Of16(ByteAt(fat, i), ByteAt(fat, i + 1))
    case Fat32 => Of32(ByteAt(fat, i), ByteAt(fat, i + 1), ByteAt(fat, i + 2), ByteAt(fat, i + 3))
  }

  /** Two 12-bit entries share three bytes: the even one has the first and the low half of the
      second. */
  lemma Layout12(fat: seq<Sector>, k: nat)
    requires 3 * k + 2 < 512 * |fat|
    ensures Offset(Fat12, 2 * k) == 3 * k && Offset(Fat12, 2 * k + 1) == 3 * k + 1
    ensures Entry(Fat12, fat, 2 * k) == ByteAt(fat, 3 * k) as nat + 256 * (ByteAt(fat, 3 * k + 1) as nat % 16)
    ensures Entry(Fat12, fat, 2 * k + 1) == ByteAt(fat, 3 * k + 1) as nat / 16 + 16 * ByteAt(fat, 3 * k + 2) as nat
  {
    hide ByteAt;
    assert (2 * k) / 2 == k && (2 * k + 1) / 2 == k && (2 * k) % 2 == 0 && (2 * k + 1) % 2 == 1;
    Word12(ByteAt(fat, 3 * k), ByteAt(fat, 3 * k + 1));
    Word12(ByteAt(fat, 3 * k + 1), ByteAt(fat, 3 * k + 2));
  }

  /** The other entries are two or four bytes, the low one first; 28 bits count. */
  lemma Layout(fat: seq<Sector>, k: nat)
    ensures 2 * k + 1 < 512 * |fat| ==>
              Entry(Fat16, fat, k) == ByteAt(fat, 2 * k) as nat + 256 * ByteAt(fat, 2 * k + 1) as nat
    ensures 4 * k + 3 < 512 * |fat| ==>
              Entry(Fat32, fat, k)
              == ByteAt(fat, 4 * k) as nat + 256 * ByteAt(fat, 4 * k + 1) as nat
                 + 65536 * ByteAt(fat, 4 * k + 2) as nat + 16777216 * (ByteAt(fat, 4 * k + 3) as nat % 16)
  {
    hide ByteAt;
  }

  /** val cut to the width of an entry. */
  function Cut(t: FsType, val: nat): nat {
    match t case Fat12 => val % 0x1000 case Fat16 => val % 0x1_0000 case Fat32 => val % 0x1000_0000
  }

  const EOC: nat := 0xFFFF_FFFF

  // ---- put_fat on the bytes

  function Low(x: nat): byte { (x % 0x100) as byte }

  /** The two bytes a 12-bit entry shares with a neighbour. */
  function First12(x: byte, c: nat, val: nat): byte {
    if c % 2 == 1 then (x as nat % 16 + (val % 16) * 16) as byte else Low(val)
  }

  function Second12(x: byte, c: nat, val: nat): byte {
    if c % 2 == 1 then Low(val / 16) else (x as nat - x as nat % 16 + (val / 0x100) % 16) as byte
  }

  /** The 32 bits stored: 28 of val and the 4 reserved ones already there. */
  function Value32(x: byte, val: nat): nat {
    val % 0x1000_0000 + (x as nat / 16) * 0x1000_0000
  }

  /** The FAT area after put_fat. */
  function PutEntry(t: FsType, fat: seq<Sector>, c: nat, val: nat): (r: seq<Sector>)
    requires Offset(t, c) + Width(t) <= SS * |fat|
    ensures |r| == |fat|
  {
    var i := Offset(t, c);
    match t
    case Fat12 =>
      var f := PutByte(fat, i, First12(ByteAt(fat, i), c, val));
      PutByte(f, i + 1, Second12(ByteAt(f, i + 1), c, val))
    case Fat16 => PutByte(PutByte(fat, i, Low(val)), i + 1, Low(val / 0x100))
    case Fat32 =>
      var v := Value32(ByteAt(fat, i + 3), val);
      PutByte(PutByte(PutByte(PutByte(fat, i, Low(v)), i + 1, Low(v / 0x100)), i + 2, Low(v / 0x10000)), i + 3,
          Low(v / 0x1000000))
  }

  /** The bytes of the area after a put. */
  ghost predicate PutBytes(t: FsType, fat: seq<Sector>, c: nat, val: nat, r: seq<Sector>)
    requires Offset(t, c) + Width(t) <= SS * |fat| && |r| == |fat|
  {
    var i := Offset(t, c);
    && (forall j :: 0 <= j < SS * |fat| && !(i <= j < i + Width(t)) ==> ByteAt(r, j) == ByteAt(fat, j))
    && (t.Fat12? ==>
        ByteAt(r, i) == First12(ByteAt(fat, i), c, val) && ByteAt(r, i + 1) == Second12(ByteAt(fat, i + 1), c, val))
    && (t.Fat16? ==> ByteAt(r, i) == Low(val) && ByteAt(r, i + 1) == Low(val / 0x100))
    && (t.Fat32? ==>
          var v := Value32(ByteAt(fat, i + 3), val);
          ByteAt(r, i) == Low(v) && ByteAt(r, i + 1) == Low(v / 0x100) && ByteAt(r, i + 2) == Low(v / 0x10000)
          && ByteAt(r, i + 3) == Low(v / 0x1000000))
  }

  lemma PutByteAll(fat: seq<Sector>, i: nat, b: byte)
    requires i < SS * |fat|
    ensures forall j :: 0 <= j < SS * |fat| ==> ByteAt(PutByte(fat, i, b), j) == if i == j then b else ByteAt(fat, j)
  {
    forall j | 0 <= j < SS * |fat| ensures ByteAt(PutByte(fat, i, b), j) == if i == j then b else ByteAt(fat, j) {
      PutByteAt(fat, i, b, j);
    }
  }

  lemma PutEntryBytes(t: FsType, fat: seq<Sector>, c: nat, val: nat)
    requires Offset(t, c) + Width(t) <= SS * |fat|
    ensures PutBytes(t, fat, c, val, PutEntry(t, fat, c, val))
  {
    hide PutByte, ByteAt, Low, First12, Second12, Value32;
    var i := Offset(t, c);
    match t
    case Fat12 =>
      var f := PutByte(fat, i, First12(ByteAt(fat, i), c, val));
      PutByteAll(fat, i, First12(ByteAt(fat, i), c, val));
      PutByteAll(f, i + 1, Second12(ByteAt(f, i + 1), c, val));
    case Fat16 =>
      PutByteAll(fat, i, Low(val));
      PutByteAll(PutByte(fat, i, Low(val)), i + 1, Low(val / 0x100));
    case Fat32 =>
      var v := Value32(ByteAt(fat, i + 3), val);
      var f1 := PutByte(fat, i, Low(v));
      var f2 := PutByte(f1, i + 1, Low(v / 0x100));
      var f3 := PutByte(f2, i + 2, Low(v / 0x10000));
      PutByteAll(fat, i, Low(v));
      PutByteAll(f1, i + 1, Low(v / 0x100));
      PutByteAll(f2, i + 2, Low(v / 0x10000));
      PutByteAll(f3, i + 3, Low(v / 0x1000000));
  }

  // Splitting a value into the digits that end up in different bytes.

  lemma Digits12(v: nat)
    ensures v % 0x1000 == v % 16 + 16 * ((v / 16) % 0x100)
    ensures v % 0x1000 == v % 0x100 + 0x100 * ((v / 0x100) % 16)
  {
    var x, y := v / 16, v / 0x100;
    ModUnique(v, 0x1000, x / 0x100, v % 16 + 16 * (x % 0x100));
    ModUnique(v, 0x1000, y / 16, v % 0x100 + 0x100 * (y % 16));
  }

  lemma Digits16(v: nat)
    ensures v % 0x1_0000 == v % 0x100 + 0x100 * ((v / 0x100) % 0x100)
  {
    assert v == v % 0x100 + 0x100 * ((v / 0x100) % 0x100) + 0x1_0000 * (v / 0x100 / 0x100);
  }

  lemma Digits32(x: byte, val: nat)
    ensures var v := Value32(x, val);
      Of32(Low(v), Low(v / 0x100), Low(v / 0x10000), Low(v / 0x1000000)) == val % 0x1000_0000
  {
    hide Of32, Low;
    var v, w, h := Value32(x, val), val % 0x1000_0000, x as nat / 16;
    Chop(w);
    Of32Low(v, v / 0x100, v / 0x10000, v / 0x1000000);
    DigitAbove(w, h, 0x100, 0x1000, v);
    DigitAbove(w, h, 0x10000, 0x10, v);
    LowAbove(w, h * 0x10_0000);
    TopAbove(w, h, v);
  }

  lemma Of32Low(p: nat, q: nat, r: nat, s: nat)
    ensures Of32(Low(p), Low(q), Low(r), Low(s)) == p % 0x100 + 0x100 * (q % 0x100) + 0x10000 * (r % 0x100)
        + 0x1000000 * (s % 0x100 % 16)
  {
  }

  /** The bits above the value do not reach a lower byte. */
  lemma DigitAbove(w: nat, h: nat, m: nat, n: nat, v: nat)
    requires m > 0 && m * n == 0x10_0000 && v == w + h * 0x1000_0000
    ensures (v / m) % 0x100 == (w / m) % 0x100
  {
    Above(w, h, m, 0x100 * n);
    AboveTimes(h, n);
    LowAbove(w / m, h * n);
  }

  lemma AboveTimes(h: nat, n: nat)
    ensures h * (0x100 * n) == 0x100 * (h * n)
  {
  }

  /** Adding a multiple of 256 does not change the low byte. */
  lemma LowAbove(u: nat, k: nat)
    ensures (u + 0x100 * k) % 0x100 == u % 0x100
  {
  }

  lemma TopAbove(w: nat, h: nat, v: nat)
    requires w < 0x1000_0000 && h < 16 && v == w + h * 0x1000_0000
    ensures (v / 0x1000000) % 0x100 % 16 == w / 0x1000000
  {
    Above(w, h, 0x1000000, 16);
    ModUnique(v / 0x1000000, 16, h, w / 0x1000000);
  }

  lemma Above(w: nat, h: nat, m: nat, n: nat)
    requires m > 0 && m * n == 0x1000_0000
    ensures (w + h * 0x1000_0000) / m == w / m + h * n
  {
    assert h * (m * n) == (h * n) * m;
    assert w == (w / m) * m + w % m;
    assert (w / m + h * n) * m == (w / m) * m + (h * n) * m;
    ModUnique(w + h * 0x1000_0000, m, w / m + h * n, w % m);
  }

  lemma Chop(w: nat)
    requires w < 0x1000_0000
    ensures w == w % 0x100 + 0x100 * ((w / 0x100) % 0x100) + 0x10000 * ((w / 0x10000) % 0x100)
        + 0x1000000 * (w / 0x1000000)
    ensures w / 0x1000000 < 16
  {
    var a, b := w / 0x100, w / 0x10000;
    assert b == a / 0x100 && w / 0x1000000 == b / 0x100;
  }

  lemma Put12(x: byte, y: byte, c: nat, val: nat)
    ensures Of12(First12(x, c, val), Second12(y, c, val), c) == Cut(Fat12, val)
  {
    Digits12(val);
    var l, h, m, k := val % 16, (val / 16) % 0x100, val % 0x100, (val / 0x100) % 16;
    if c % 2 == 1 {
      assert (x as nat % 16 + l * 16 + 0x100 * h) / 16 == l + 16 * h;
    } else {
      var q := y as nat / 16;
      assert y as nat - y as nat % 16 == q * 16;
      assert (m + 0x100 * (q * 16 + k)) % 0x1000 == m + 0x100 * k;
    }
  }

  lemma Halves12(x: byte, c: nat, val: nat)
    ensures c % 2 == 1 ==> First12(x, c, val) as nat % 16 == x as nat % 16
    ensures c % 2 == 0 ==> Second12(x, c, val) as nat / 16 == x as nat / 16
  {
    ModUnique(x as nat % 16 + val % 16 * 16, 16, val % 16, x as nat % 16);
    ModUnique(x as nat - x as nat % 16 + (val / 0x100) % 16, 16, x as nat / 16, (val / 0x100) % 16);
  }

  /** The half of a shared byte that belongs to the entry before or after. */
  lemma Neighbour12(a: byte, x: byte, b: byte, c: nat, val: nat)
    ensures c % 2 == 1 ==> Of12(a, First12(x, c, val), c - 1) == Of12(a, x, c - 1)
    ensures c % 2 == 0 ==> Of12(Second12(x, c, val), b, c + 1) == Of12(x, b, c + 1)
  {
    hide First12, Second12;
    Halves12(x, c, val);
    Word12(a, x);
    Word12(x, b);
    if c % 2 == 1 {
      Word12(a, First12(x, c, val));
    } else {
      Word12(Second12(x, c, val), b);
    }
  }

  lemma Word12(a: byte, b: byte)
    ensures (a as nat + 0x100 * b as nat) / 16 == a as nat / 16 + 16 * b as nat
    ensures (a as nat + 0x100 * b as nat) % 0x1000 == a as nat + 0x100 * (b as nat % 16)
  {
    assert a as nat == a as nat / 16 * 16 + a as nat % 16;
    assert b as nat == b as nat / 16 * 16 + b as nat % 16;
  }

  lemma PutGet12(fat: seq<Sector>, c: nat, val: nat)
    requires Offset(Fat12, c) + 2 <= SS * |fat|
    ensures Entry(Fat12, PutEntry(Fat12, fat, c, val), c) == Cut(Fat12, val)
  {
    hide PutEntry, ByteAt, First12, Second12, Of12, Offset;
    PutEntryBytes(Fat12, fat, c, val);
    Put12(ByteAt(fat, Offset(Fat12, c)), ByteAt(fat, Offset(Fat12, c) + 1), c, val);
  }

  /** The bytes of a put, read back. */
  lemma PutRead32(fat: seq<Sector>, r: seq<Sector>, c: nat, val: nat)
    requires Offset(Fat32, c) + 4 <= SS * |fat| && |r| == |fat| && PutBytes(Fat32, fat, c, val, r)
    ensures Entry(Fat32, r, c) == Cut(Fat32, val)
  {
    hide ByteAt, Value32, Of32, Low, Offset;
    Digits32(ByteAt(fat, Offset(Fat32, c) + 3), val);
  }

  lemma PutRead16(fat: seq<Sector>, r: seq<Sector>, c: nat, val: nat)
    requires Offset(Fat16, c) + 2 <= SS * |fat| && |r| == |fat| && PutBytes(Fat16, fat, c, val, r)
    ensures Entry(Fat16, r, c) == Cut(Fat16, val)
  {
    hide ByteAt;
    Digits16(val);
  }

  /** After a put, the entry holds the value cut to its width. */
  lemma PutGet(t: FsType, fat: seq<Sector>, c: nat, val: nat)
    requires Offset(t, c) + Width(t) <= SS * |fat|
    ensures Entry(t, PutEntry(t, fat, c, val), c) == Cut(t, val)
  {
    hide PutEntry, ByteAt, PutBytes, Low;
    match t
    case Fat12 => PutGet12(fat, c, val);
    case Fat32 =>
      PutEntryBytes(t, fat, c, val);
      PutRead32(fat, PutEntry(t, fat, c, val), c, val);
    case Fat16 =>
      PutEntryBytes(t, fat, c, val);
      PutRead16(fat, PutEntry(t, fat, c, val), c, val);
  }

  lemma Offsets12(c: nat, d: nat)
    requires c != d
    ensures d == c + 1 && c % 2 == 0 ==> Offset(Fat12, d) == Offset(Fat12, c) + 1
    ensures d + 1 == c && c % 2 == 1 ==> Offset(Fat12, d) + 1 == Offset(Fat12, c)
    ensures !(d == c + 1 && c % 2 == 0) && !(d + 1 == c && c % 2 == 1) ==>
              Offset(Fat12, d) + 1 < Offset(Fat12, c) || Offset(Fat12, c) + 1 < Offset(Fat12, d)
  {
  }

  lemma PutOther12(fat: seq<Sector>, c: nat, val: nat, d: nat)
    requires Offset(Fat12, c) + 2 <= SS * |fat| && Offset(Fat12, d) + 2 <= SS * |fat| && c != d
    ensures Entry(Fat12, PutEntry(Fat12, fat, c, val), d) == Entry(Fat12, fat, d)
  {
    hide PutEntry, ByteAt, First12, Second12, Of12, Offset;
    PutEntryBytes(Fat12, fat, c, val);
    Offsets12(c, d);
    var i, j := Offset(Fat12, c), Offset(Fat12, d);
    if d == c + 1 && c % 2 == 0 {
      Neighbour12(0, ByteAt(fat, j), ByteAt(fat, j + 1), c, val);
    } else if d + 1 == c && c % 2 == 1 {
      Neighbour12(ByteAt(fat, j), ByteAt(fat, j + 1), 0, c, val);
    }
  }

  /** Every other entry keeps its value, the neighbour in a shared byte included. */
  lemma PutOther(t: FsType, fat: seq<Sector>, c: nat, val: nat, d: nat)
    requires Offset(t, c) + Width(t) <= SS * |fat| && Offset(t, d) + Width(t) <= SS * |fat| && c != d
    ensures Entry(t, PutEntry(t, fat, c, val), d) == Entry(t, fat, d)
  {
    if t.Fat12? {
      PutOther12(fat, c, val, d);
    } else {
      PutEntryBytes(t, fat, c, val);
      hide PutEntry, ByteAt;
    }
  }

  lemma Reserved(x: byte, val: nat)
    ensures (Value32(x, val) / 0x1000000) % 0x100 / 16 == x as nat / 16
  {
    var w, h := val % 0x1000_0000, x as nat / 16;
    Above(w, h, 0x1000000, 16);
    var t := w / 0x1000000;
    assert t < 16;
    ModUnique(t + h * 16, 16, h, t);
  }

  /** The four reserved bits of a 32-bit entry survive a put. */
  lemma PutReserved(fat: seq<Sector>, c: nat, val: nat)
    requires Offset(Fat32, c) + 4 <= SS * |fat|
    ensures ByteAt(PutEntry(Fat32, fat, c, val), Offset(Fat32, c) + 3) as nat / 16
        == ByteAt(fat, Offset(Fat32, c) + 3) as nat / 16
  {
    hide PutEntry, ByteAt, Value32, Offset;
    PutEntryBytes(Fat32, fat, c, val);
    Reserved(ByteAt(fat, Offset(Fat32, c) + 3), val);
  }

  // ---- the table as a sequence of entries

  predicate Holds(t: FsType, fat: seq<Sector>, n: nat) {
    TableBytes(t, n) <= SS * |fat|
  }

  function Table(t: FsType, fat: seq<Sector>, n: nat): (r: seq<nat>)
    requires Holds(t, fat, n)
    ensures |r| == n
  {
    seq(n, c requires 0 <= c < n => OffsetFits(t, n, c); Entry(t, fat, c))
  }

  lemma TableAt(t: FsType, fat: seq<Sector>, n: nat, c: nat)
    requires Holds(t, fat, n) && c < n
    ensures Offset(t, c) + Width(t) <= SS * |fat| && Table(t, fat, n)[c] == Entry(t, fat, c)
  {
    OffsetFits(t, n, c);
  }

  /** put_fat updates one entry of the table. */
  lemma PutTable(t: FsType, fat: seq<Sector>, n: nat, c: nat, val: nat)
    requires Holds(t, fat, n) && c < n
    ensures Offset(t, c) + Width(t) <= SS * |fat|
    ensures Table(t, PutEntry(t, fat, c, val), n) == Table(t, fat, n)[c := Cut(t, val)]
  {
    OffsetFits(t, n, c);
    var a, b := Table(t, fat, n), Table(t, PutEntry(t, fat, c, val), n);
    forall d | 0 <= d < n ensures b[d] == a[c := Cut(t, val)][d] {
      TableAt(t, fat, n, d);
      TableAt(t, PutEntry(t, fat, c, val), n, d);
      if d == c {
        PutGet(t, fat, c, val);
      } else {
        PutOther(t, fat, c, val, d);
      }
    }
  }
}
