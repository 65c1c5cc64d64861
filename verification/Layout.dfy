/** Account buffers as tables of regions: one write, a sequence of writes, and what each leaves alone. */
module Layout {
  import opened Bytes

  datatype LayoutError = SliceTooShort | InvalidBool | MathOverflow
  datatype Result<+T> = Ok(value: T) | Err(error: LayoutError)

  /** A 32-byte address or random value, as the little-endian number its bytes spell. */
  type Key = nat

  /** Length of the discriminator that starts every account. */
  const DISC: nat := 8

  /** A region of an account: its offset in the account data, discriminator included, and its width. */
  datatype Field = Field(at: nat, width: nat) {
    function End(): nat { at + width }
  }

  const Discriminator := Field(0, DISC)

  predicate Apart(f: Field, g: Field) { f.End() <= g.at || g.End() <= f.at }

  function Get(b: seq<byte>, f: Field): (v: seq<byte>)
    requires f.End() <= |b|
    ensures |v| == f.width
  {
    b[f.at..f.End()]
  }

  function Uint(b: seq<byte>, f: Field): nat
    requires f.End() <= |b|
  {
    DecodeLE(Get(b, f))
  }

  function Int64(b: seq<byte>, f: Field): int
    requires f.End() <= |b|
  {
    ToI64(Uint(b, f))
  }

  function Put(b: seq<byte>, f: Field, v: seq<byte>): (r: seq<byte>)
    requires f.End() <= |b| && |v| == f.width
    ensures |r| == |b|
  {
    Splice(b, f.at, v)
  }

  /** `b'` is `b` with the region `f` written: it is read back, and nothing apart from it changes. */
  ghost predicate Wrote(b: seq<byte>, b': seq<byte>, f: Field, x: seq<byte>)
  {
    && |b'| == |b| && f.End() <= |b| && |x| == f.width
    && Get(b', f) == x
    && forall g: Field :: g.End() <= |b| && Apart(f, g) ==> Get(b', g) == Get(b, g)
  }

  lemma PutWrote(b: seq<byte>, f: Field, x: seq<byte>)
    requires f.End() <= |b| && |x| == f.width
    ensures Wrote(b, Put(b, f, x), f, x)
    ensures SameExcept(b, Put(b, f, x), f.at, f.width)
  {
    forall g: Field | g.End() <= |b| && Apart(f, g) ensures Get(Put(b, f, x), g) == Get(b, g) {
      SliceFrame(b, Put(b, f, x), f.at, f.width, g.at, g.End());
    }
  }

  lemma UintBound(b: seq<byte>, f: Field)
    requires f.End() <= |b|
    ensures Uint(b, f) < Pow256(f.width)
  {
    EncodeDecode(Get(b, f));
  }

  // ----- several writes -----

  datatype Write = Write(f: Field, x: seq<byte>)

  /** The writes stay inside `len` bytes, have their region's width, and do not overlap. */
  ghost predicate Table(ws: seq<Write>, len: nat)
  {
    && (forall k :: 0 <= k < |ws| ==> ws[k].f.End() <= len && |ws[k].x| == ws[k].f.width)
    && forall k, m :: 0 <= k < m < |ws| ==> Apart(ws[k].f, ws[m].f)
  }

  lemma TableFits(ws: seq<Write>, len: nat, len': nat)
    requires Table(ws, len) && len <= len'
    ensures Table(ws, len')
  {
  }

  /** The buffer after the first `n` writes. */
  ghost function PutAll(b: seq<byte>, ws: seq<Write>, n: nat): (r: seq<byte>)
    requires n <= |ws| && Table(ws, |b|)
    ensures |r| == |b|
  {
    if n == 0 then b else Put(PutAll(b, ws, n - 1), ws[n - 1].f, ws[n - 1].x)
  }

  /** Every written region reads back what was written there, whatever came after it. */
  lemma {:induction false} PutAllRead(b: seq<byte>, ws: seq<Write>, n: nat, k: nat)
    requires k < n <= |ws| && Table(ws, |b|)
    ensures Get(PutAll(b, ws, n), ws[k].f) == ws[k].x
  {
    PutWrote(PutAll(b, ws, n - 1), ws[n - 1].f, ws[n - 1].x);
    if k < n - 1 { PutAllRead(b, ws, n - 1, k); }
  }

  /** A region apart from all the writes reads as before. */
  lemma {:induction false} PutAllFrame(b: seq<byte>, ws: seq<Write>, n: nat, g: Field)
    requires n <= |ws| && Table(ws, |b|) && g.End() <= |b|
    requires forall k :: 0 <= k < n ==> Apart(ws[k].f, g)
    ensures Get(PutAll(b, ws, n), g) == Get(b, g)
  {
    if n > 0 {
      PutAllFrame(b, ws, n - 1, g);
      PutWrote(PutAll(b, ws, n - 1), ws[n - 1].f, ws[n - 1].x);
    }
  }
}
