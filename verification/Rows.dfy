/** Instruction rows in bytes: what the writer writes, the reader reads. */
module Rows {
  import opened Bits
  import opened Bytes
  import opened Machine
  import opened Reader
  import opened Writer
  import opened Lookups

  /** The bits of a field hold the value, the rest of the space is unchanged. */
  lemma WroteSpace(before: seq<bv8>, after: seq<bv8>, at: nat, width: nat, value: nat)
    requires at + width <= 8 * |before| && Wrote(before, after, at, width, value)
    ensures Same(Unpack(before), Unpack(after), Span(at, width))
    ensures Val(Unpack(after), at, width) == value % Pow2(width)
  {
    hide BitAt, Digit, Val;
    DigitsVal(Unpack(after), at, width, value);
  }

  /** A row that the fields can hold. */
  predicate Fits(c: Config, row: Row)
    requires c.Valid()
  {
    row.n < Pow2(c.ab - 1) && row.dst < Pow2(c.ab) && row.src < Pow2(c.ab)
  }

  /** Writes one row at a bit position: count, destination, source. */
  method WriteRow(c: Config, data: array<bv8>, at: nat, row: Row)
    requires c.Valid() && at + c.RowBits() <= 8 * data.Length && Fits(c, row)
    modifies data
    ensures Same(Unpack(old(data[..])), Unpack(data[..]), Span(at, c.RowBits()))
    ensures RowBitsAt(c, Unpack(data[..]), at) == row
  {
    hide BitAt, Digit, Val, Wrote, Unpack, Pow2;
    var n := c.ab - 1;
    WriteField(data, at, n, row.n);
    ghost var s1 := data[..];
    WroteSpace(old(data[..]), s1, at, n, row.n);
    WriteField(data, at + n, c.ab, row.dst);
    ghost var s2 := data[..];
    WroteSpace(s1, s2, at + n, c.ab, row.dst);
    WriteField(data, at + n + c.ab, c.ab, row.src);
    WroteSpace(s2, data[..], at + n + c.ab, c.ab, row.src);
    ThreeFields(c, Unpack(old(data[..])), Unpack(s1), Unpack(s2), Unpack(data[..]), at, row);
  }

  /** A row as three numbers at a position. */
  function RowBitsAt(c: Config, s: Space, at: nat): Row
    requires c.Valid() && at + c.RowBits() <= |s|
  {
    Row(Val(s, at, c.ab - 1), Val(s, at + c.ab - 1, c.ab), Val(s, at + 2 * c.ab - 1, c.ab))
  }

  lemma ThreeFields(c: Config, s: Space, s1: Space, s2: Space, t: Space, at: nat, row: Row)
    requires c.Valid() && at + c.RowBits() <= |s| && Fits(c, row)
    requires Same(s, s1, Span(at, c.ab - 1)) && Val(s1, at, c.ab - 1) == row.n % Pow2(c.ab - 1)
    requires Same(s1, s2, Span(at + c.ab - 1, c.ab)) && Val(s2, at + c.ab - 1, c.ab) == row.dst % Pow2(c.ab)
    requires Same(s2, t, Span(at + 2 * c.ab - 1, c.ab)) && Val(t, at + 2 * c.ab - 1, c.ab) == row.src % Pow2(c.ab)
    ensures Same(s, t, Span(at, c.RowBits())) && RowBitsAt(c, t, at) == row
  {
    hide Val, Pow2, Same, Span;
    var n, at1, at2 := c.ab - 1, at + c.ab - 1, at + 2 * c.ab - 1;
    SpanParts(at, n, c.ab);
    SameSize(s, s1, Span(at, n));
    SameSize(s1, s2, Span(at1, c.ab));
    SameThen(s, s1, s2, Span(at, n), Span(at1, c.ab), Span(at, c.RowBits()));
    SameThen(s, s2, t, Span(at, c.RowBits()), Span(at2, c.ab), Span(at, c.RowBits()));
    SameSize(s2, t, Span(at2, c.ab));
    SmallMod(row.n, Pow2(n));
    SmallMod(row.dst, Pow2(c.ab));
    SmallMod(row.src, Pow2(c.ab));
    SameVal(s1, s2, Span(at + c.ab - 1, c.ab), at, c.ab - 1);
    SameVal(s2, t, Span(at + 2 * c.ab - 1, c.ab), at, c.ab - 1);
    SameVal(s2, t, Span(at + 2 * c.ab - 1, c.ab), at + c.ab - 1, c.ab);
  }

  lemma SpanParts(at: nat, n: nat, w: nat)
    ensures Span(at, n) <= Span(at, n + w + w) && Span(at + n, w) <= Span(at, n + w + w)
    ensures Span(at + n + w, w) <= Span(at, n + w + w)
    ensures Span(at, n) !! Span(at + n, w) && Span(at, n) !! Span(at + n + w, w) && Span(at + n, w) !! Span(at + n + w, w)
  {
  }

  /** fetch_instruction: the word-at-a-time reader on the three fields. */
  method FetchInstruction(c: Config, space: array<bv8>, at: nat) returns (row: Row)
    requires c.Valid() && at + c.RowBits() <= 8 * space.Length
    ensures row == RowBitsAt(c, Unpack(space[..]), at)
  {
    hide BitAt, Val, Unpack, Pow2;
    var n := GetArgument(space, at, c.ab - 1);
    var dst := GetArgument(space, at + c.ab - 1, c.ab);
    var src := GetArgument(space, at + 2 * c.ab - 1, c.ab);
    row := Row(Val(n, 0, 32), Val(dst, 0, 32), Val(src, 0, 32));
  }

  /** Every row that fits comes back unchanged, and no other bit of the space has moved. */
  method RoundTrip(c: Config, space: array<bv8>, at: nat, row: Row) returns (back: Row)
    requires c.Valid() && at + c.RowBits() <= 8 * space.Length && Fits(c, row)
    modifies space
    ensures back == row
    ensures Same(Unpack(old(space[..])), Unpack(space[..]), Span(at, c.RowBits()))
  {
    WriteRow(c, space, at, row);
    back := FetchInstruction(c, space, at);
  }
}
