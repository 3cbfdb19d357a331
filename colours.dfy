/** The palette ColorMap reads out of the finished network: colour number t
    is the colour of the row tagged t, as three bytes. */
module Colours {
  import opened FixedPoint
  import opened Neurons

  /** The row that ColorMap's index records for tag t after scanning the
      first n rows: the last of them tagged t, or 0 when there is none. */
  function TagRow(ns: seq<Neuron>, t: int, n: int): (k: int)
    requires 0 <= n <= |ns|
    ensures 0 <= k && (k < n || k == 0)
  {
    if n == 0 then 0
    else if ns[n - 1].tag == t then n - 1
    else TagRow(ns, t, n - 1)
  }

  /** When tags are distinct, the row recorded for a row's tag is that row. */
  lemma {:induction false} TagRowFinds(ns: seq<Neuron>, k: int, n: int)
    requires TagsDistinct(ns) && 0 <= k < n <= |ns|
    ensures TagRow(ns, ns[k].tag, n) == k
  {
    if k < n - 1 {
      assert ns[k].tag != ns[n - 1].tag;
      TagRowFinds(ns, k, n - 1);
    }
  }

  /** Channel c (0, 1 or 2) of a row. */
  function Channel(n: Neuron, c: int): (v: int)
  {
    if c == 0 then n.b else if c == 1 then n.g else n.r
  }

  /** Byte q of the palette: channel q % 3 of the row recorded for colour
      number q / 3, cut to a byte. */
  function PaletteByte(ns: seq<Neuron>, q: int): (x: byte)
    requires 0 <= q < 3 * |ns|
  {
    ToByte(Channel(ns[TagRow(ns, q / 3, |ns|)], q % 3))
  }

  /** When tags are distinct, the palette entry for a row's tag is that
      row's colour. */
  lemma PaletteOfRow(ns: seq<Neuron>, k: int, c: int)
    requires TagsArePermutation(ns) && 0 <= k < |ns| && 0 <= c < 3
    ensures 3 * ns[k].tag + c < 3 * |ns|
    ensures PaletteByte(ns, 3 * ns[k].tag + c) == ToByte(Channel(ns[k], c))
  {
    var t := ns[k].tag;
    assert (3 * t + c) / 3 == t && (3 * t + c) % 3 == c;
    TagRowFinds(ns, k, |ns|);
  }
}
