/** How a byte range falls on the sectors of a device: the misaligned head, the aligned
    middle and the misaligned tail that `ReadAt` and `WriteAt` treat one after the other. */
module Layout {
  const SECTOR: nat := 512

  /** One piece of a transfer: sectors [start, start + num) serve buffer bytes [lo, hi). */
  datatype Piece = Piece(start: nat, num: nat, lo: nat, hi: nat) {
    /** The sectors hold more bytes than the piece: a write must read them first. */
    predicate Partial() {
      hi - lo != num * SECTOR
    }
  }

  predicate Aligned(len: nat, off: nat) {
    len % SECTOR == 0 && off % SECTOR == 0
  }

  function Min(a: int, b: int): int {
    if a < b then a else b
  }

  /** Bytes served from the sector that `off` lies inside of. */
  function HeadLen(off: nat, len: nat): nat {
    if off % SECTOR == 0 then 0 else Min(SECTOR - off % SECTOR, len)
  }

  function MidSectors(off: nat, len: nat): nat {
    (len - HeadLen(off, len)) / SECTOR
  }

  /** Bytes served before the tail. */
  function BodyLen(off: nat, len: nat): nat {
    HeadLen(off, len) + MidSectors(off, len) * SECTOR
  }

  lemma PartLengths(off: nat, len: nat)
    ensures HeadLen(off, len) <= BodyLen(off, len) <= len < BodyLen(off, len) + SECTOR
    ensures off % SECTOR != 0 && len > 0 ==> HeadLen(off, len) > 0
    ensures MidSectors(off, len) > 0 <==> HeadLen(off, len) < BodyLen(off, len)
  {
  }

  function FirstWhole(off: nat): nat {
    if off % SECTOR == 0 then off / SECTOR else off / SECTOR + 1
  }

  function HeadPieces(off: nat, len: nat): seq<Piece> {
    if off % SECTOR == 0 then [] else [Piece(off / SECTOR, 1, 0, HeadLen(off, len))]
  }

  function MidPieces(off: nat, len: nat): seq<Piece> {
    if MidSectors(off, len) == 0 then []
    else [Piece(FirstWhole(off), MidSectors(off, len), HeadLen(off, len), BodyLen(off, len))]
  }

  function TailPieces(off: nat, len: nat): seq<Piece> {
    if len <= BodyLen(off, len) then []
    else [Piece(FirstWhole(off) + MidSectors(off, len), 1, BodyLen(off, len), len)]
  }

  function Pieces(off: nat, len: nat): seq<Piece> {
    HeadPieces(off, len) + MidPieces(off, len) + TailPieces(off, len)
  }

  function CeilDiv(n: nat): nat {
    (n + SECTOR - 1) / SECTOR
  }

  /** The pieces follow each other both in the buffer and on the device: they cover the
      buffer exactly once, and sectors floor(off/S) up to ceil((off+len)/S) exactly once,
      in increasing order; each piece's bytes lie inside its sectors. */
  ghost predicate Tiles(ps: seq<Piece>, off: nat, len: nat) {
    && (ps == [] ==> len == 0)
    && (ps != [] ==>
          && ps[0].lo == 0 && ps[|ps| - 1].hi == len
          && ps[0].start == off / SECTOR
          && ps[|ps| - 1].start + ps[|ps| - 1].num == CeilDiv(off + len))
    && (forall k :: 0 <= k < |ps| ==> PieceFits(ps[k], off, len))
    && (forall k :: 0 < k < |ps| ==> ps[k].lo == ps[k - 1].hi && ps[k].start == ps[k - 1].start + ps[k - 1].num)
  }

  ghost predicate PieceFits(p: Piece, off: nat, len: nat) {
    && p.num >= 1
    && p.lo <= p.hi <= len
    && p.start * SECTOR <= off + p.lo
    && off + p.hi <= (p.start + p.num) * SECTOR
    && (p.Partial() ==> p.num == 1)
    && (len > 0 ==> p.lo < p.hi)
    && (p.start + p.num) * SECTOR < off + len + SECTOR
  }

  /** Where the three parts begin and end on the device. */
  lemma PartPlaces(off: nat, len: nat)
    ensures var h, m, b, f := HeadLen(off, len), MidSectors(off, len), BodyLen(off, len), FirstWhole(off);
      && h <= b == h + m * SECTOR <= len < b + SECTOR
      && (off % SECTOR == 0 ==> h == 0 && f * SECTOR == off && f == off / SECTOR)
      && (off % SECTOR != 0 ==> h < SECTOR && (len > 0 ==> h > 0) && f == off / SECTOR + 1
                                && off / SECTOR * SECTOR <= off && off + h <= f * SECTOR < off + SECTOR)
      && (m > 0 || len > b ==> off + h == f * SECTOR && off + b == (f + m) * SECTOR)
      && CeilDiv(off + len) == (if len > b then f + m + 1 else if m > 0 || off % SECTOR == 0 then f + m else off / SECTOR + 1)
  {
    var h, m, b := HeadLen(off, len), MidSectors(off, len), BodyLen(off, len);
    assert off == off / SECTOR * SECTOR + off % SECTOR;
    assert h <= b <= len < b + SECTOR;
    assert m > 0 || len > b ==> off + h == FirstWhole(off) * SECTOR;
  }

  lemma PiecesTile(off: nat, len: nat)
    ensures Tiles(Pieces(off, len), off, len)
  {
    PartPlaces(off, len);
    hide HeadLen, MidSectors, BodyLen, FirstWhole, CeilDiv;
  }

  /** The count `ReadAt` returns when it fills a range of `len` bytes: the tail is copied but
      never counted. */
  function ReadCount(off: nat, len: nat): nat {
    BodyLen(off, len)
  }

  /** The count is the length exactly when the range ends on a sector boundary or lies inside
      one misaligned head sector; otherwise it stops at the last sector boundary before the end. */
  lemma ReadCountExact(off: nat, len: nat)
    ensures ReadCount(off, len) ==
      if (off + len) % SECTOR == 0 || (off % SECTOR != 0 && off + len <= (off / SECTOR + 1) * SECTOR)
      then len
      else (off + len) / SECTOR * SECTOR - off
  {
  }

  /** A range that ends within a whole number of sectors only touches sectors before that end. */
  lemma PiecesInside(off: nat, len: nat, sectors: nat)
    requires off + len <= sectors * SECTOR
    requires len == 0 ==> off < sectors * SECTOR
    ensures forall k :: 0 <= k < |Pieces(off, len)| ==>
      Pieces(off, len)[k].start + Pieces(off, len)[k].num <= sectors
  {
    PiecesTile(off, len);
  }
}
