/**
 The receive ring of the Hydra Ethernet board: the controller stores frames into 56 pages of 256 bytes, each
 frame from the beginning of a page on and around the end of the ring, and the driver takes them out.
 */
module Hydra {

  import opened Basics

  const PAGE: nat := 256
  const RX_START: nat := 8
  const STOP: nat := 64
  const PAGES: nat := 56        // STOP - RX_START
  const RING: nat := 14336      // PAGES * PAGE
  const MIN_FRAME: nat := 60
  const MAX_FRAME: nat := 1518

  /** A frame, with the receive status that the controller gives it. */
  datatype Frame = Frame(rsr: Byte, data: seq<Byte>)

  /** Pages are counted from the one that the driver starts with, and never wrap; this is the number that the
      registers hold for page v. */
  function PageOf(v: nat): (p: nat)
    ensures RX_START <= p < STOP
  {
    RX_START + (v + 1) % PAGES
  }

  /** Where byte b, counted the same way, is in the board's memory. */
  function At(b: nat): (i: nat)
    ensures RX_START * PAGE <= i < STOP * PAGE
  {
    RX_START * PAGE + (b + PAGE) % RING
  }

  lemma PagesDiffer(v: nat, w: nat)
    requires v <= w < v + PAGES
    ensures PageOf(v) == PageOf(w) <==> v == w
  {
  }

  lemma BytesDiffer(a: nat, b: nat)
    requires a < b < a + RING
    ensures At(a) != At(b)
  {
  }

  lemma PageBegins(v: nat)
    ensures At(PAGE * v) == PAGE * PageOf(v)
  {
    var q, r := (v + 1) / PAGES, (v + 1) % PAGES;
    assert v + 1 == PAGES * q + r;
    assert PAGE * v + PAGE == RING * q + PAGE * r;
  }

  /** The bytes of a page's frame follow one another up to the end of the ring, and then from its beginning. */
  lemma BytesFollow(v: nat, k: nat)
    requires k < RING
    ensures At(PAGE * v + k) == if PAGE * PageOf(v) + k < STOP * PAGE then PAGE * PageOf(v) + k else PAGE * PageOf(v) + k - RING
  {
    PageBegins(v);
  }

  /** The pages that a frame with its header takes up. */
  function Need(f: Frame): (n: nat)
    ensures n > 0 && 4 + |f.data| <= PAGE * n < 4 + |f.data| + PAGE
  {
    (4 + |f.data| + 255) / 256
  }

  /** What the controller stores for a frame on page v: the page after it, the status and the length. */
  function Image(f: Frame, v: nat): (bytes: seq<Byte>)
    requires 4 + |f.data| < 0x1_0000
    ensures |bytes| == 4 + |f.data|
  {
    [PageOf(v + Need(f)), f.rsr, (4 + |f.data|) % 256, (4 + |f.data|) / 256] + f.data
  }

  datatype Placed = Placed(v: nat, f: Frame)

  /** The driver takes frames up if they were received well and their length is that of a frame. */
  predicate Acceptable(f: Frame)
  {
    f.rsr % 2 == 1 && MIN_FRAME <= |f.data| <= MAX_FRAME
  }

  function Accepted(fs: seq<Frame>): (packets: seq<seq<Byte>>)
  {
    if fs == [] then []
    else Accepted(fs[..|fs| - 1]) + if Acceptable(fs[|fs| - 1]) then [fs[|fs| - 1].data] else []
  }

  // ----- a well-formed ring

  ghost predicate StoredAt(mem: seq<Byte>, p: Placed)
    requires |mem| == STOP * PAGE
  {
    4 + |p.f.data| < RING && forall k: nat :: k < 4 + |p.f.data| ==> mem[At(PAGE * p.v + k)] == Image(p.f, p.v)[k]
  }

  /** The frames that wait lie one after the other from page head up to page tail, and leave a page free. */
  ghost predicate Ring(mem: seq<Byte>, waiting: seq<Placed>, head: nat, tail: nat)
  {
    && |mem| == STOP * PAGE && head <= tail < head + PAGES
    && (if waiting == [] then head == tail else waiting[0].v == head && After(waiting[|waiting| - 1]) == tail)
    && (forall i: nat :: i < |waiting| ==> head <= waiting[i].v && After(waiting[i]) <= tail && StoredAt(mem, waiting[i]))
    && (forall i: nat :: i + 1 < |waiting| ==> waiting[i + 1].v == After(waiting[i]))
  }

  function After(p: Placed): (v: nat)
  {
    p.v + Need(p.f)
  }

  /** The controller stores a frame on the free pages: those from tail up to, but not including, the page that
      BNRY names, which is the one before head. */
  function Write(mem: seq<Byte>, p: Placed, n: nat): (mem': seq<Byte>)
    requires |mem| == STOP * PAGE && n <= 4 + |p.f.data| < RING
    ensures |mem'| == |mem|
  {
    if n == 0 then mem
    else Write(mem, p, n - 1)[At(PAGE * p.v + n - 1) := Image(p.f, p.v)[n - 1]]
  }

  predicate Fits(f: Frame, head: nat, tail: nat)
  {
    tail + Need(f) < head + PAGES
  }

  lemma {:induction false} WriteStores(mem: seq<Byte>, p: Placed, n: nat, b: nat)
    requires |mem| == STOP * PAGE && n <= 4 + |p.f.data| < RING
    ensures PAGE * p.v <= b < PAGE * p.v + n ==> Write(mem, p, n)[At(b)] == Image(p.f, p.v)[b - PAGE * p.v]
    ensures PAGE * p.v + n <= b + RING && b < PAGE * p.v ==> Write(mem, p, n)[At(b)] == mem[At(b)]
  {
    if n > 0 {
      WriteStores(mem, p, n - 1, b);
      var last := PAGE * p.v + n - 1;
      if PAGE * p.v <= b < last {
        BytesDiffer(b, last);
      } else if b < PAGE * p.v && last < b + RING {
        BytesDiffer(b, last);
      }
    }
  }

  lemma WriteKeepsByte(mem: seq<Byte>, p: Placed, n: nat, q: Placed, k: nat)
    requires |mem| == STOP * PAGE && n <= 4 + |p.f.data| < RING && StoredAt(mem, q) && k < 4 + |q.f.data|
    requires After(q) <= p.v && After(p) <= q.v + PAGES
    ensures Write(mem, p, n)[At(PAGE * q.v + k)] == mem[At(PAGE * q.v + k)]
  {
    WriteStores(mem, p, n, PAGE * q.v + k);
  }

  /** Storing a frame, or a part of it, leaves the frames before it alone. */
  lemma WriteKeeps(mem: seq<Byte>, p: Placed, n: nat, q: Placed)
    requires |mem| == STOP * PAGE && n <= 4 + |p.f.data| < RING && StoredAt(mem, q)
    requires After(q) <= p.v && After(p) <= q.v + PAGES
    ensures StoredAt(Write(mem, p, n), q)
  {
    forall k: nat | k < 4 + |q.f.data|
      ensures Write(mem, p, n)[At(PAGE * q.v + k)] == Image(q.f, q.v)[k]
    {
      WriteKeepsByte(mem, p, n, q, k);
    }
  }

  /** A frame that is only partly stored, so that CURR has not moved, leaves a well-formed ring. */
  lemma PartKeepsRing(mem: seq<Byte>, waiting: seq<Placed>, head: nat, tail: nat, f: Frame, n: nat)
    requires Ring(mem, waiting, head, tail) && Fits(f, head, tail) && n <= 4 + |f.data|
    ensures 4 + |f.data| < RING && Ring(Write(mem, Placed(tail, f), n), waiting, head, tail)
  {
    forall i: nat | i < |waiting|
      ensures StoredAt(Write(mem, Placed(tail, f), n), waiting[i])
    {
      WriteKeeps(mem, Placed(tail, f), n, waiting[i]);
    }
  }

  /** An arriving frame that fits leaves a well-formed ring, with the frame last. */
  lemma ArrivalKeepsRing(mem: seq<Byte>, waiting: seq<Placed>, head: nat, tail: nat, f: Frame)
    requires Ring(mem, waiting, head, tail) && Fits(f, head, tail)
    ensures 4 + |f.data| < RING
    ensures var p := Placed(tail, f);
            Ring(Write(mem, p, 4 + |f.data|), waiting + [p], head, After(p))
  {
    var p := Placed(tail, f);
    var mem' := Write(mem, p, 4 + |f.data|);
    assert StoredAt(mem', p) by {
      forall k: nat | k < 4 + |f.data|
        ensures mem'[At(PAGE * p.v + k)] == Image(f, p.v)[k]
      {
        WriteStores(mem, p, 4 + |f.data|, PAGE * p.v + k);
      }
    }
    forall i: nat | i < |waiting|
      ensures StoredAt(mem', waiting[i])
    {
      WriteKeeps(mem, p, 4 + |f.data|, waiting[i]);
    }
  }

  /** Taking the first frame leaves a well-formed ring. */
  lemma TakingKeepsRing(mem: seq<Byte>, waiting: seq<Placed>, head: nat, tail: nat)
    requires Ring(mem, waiting, head, tail) && waiting != []
    ensures Ring(mem, waiting[1..], After(waiting[0]), tail)
  {
    var rest := waiting[1..];
    forall i: nat | i < |rest|
      ensures After(waiting[0]) <= rest[i].v
    {
      LaterIsAfter(mem, waiting, head, tail, i + 1);
    }
    forall i: nat {:trigger rest[i]} | i + 1 < |rest|
      ensures rest[i + 1].v == After(rest[i])
    {
      assert waiting[i + 1 + 1].v == After(waiting[i + 1]);
    }
  }

  lemma {:induction false} LaterIsAfter(mem: seq<Byte>, waiting: seq<Placed>, head: nat, tail: nat, i: nat)
    requires Ring(mem, waiting, head, tail) && 0 < i < |waiting|
    ensures After(waiting[0]) <= waiting[i].v
  {
    assert waiting[i - 1 + 1].v == After(waiting[i - 1]);
    if i > 1 {
      LaterIsAfter(mem, waiting, head, tail, i - 1);
    }
  }

  // ----- registers

  /** The register that is one page behind another. */
  function Behind(page: nat): (p: nat)
  {
    if page <= RX_START then STOP - 1 else page - 1
  }

  /** The pages from CURR up to BNRY. */
  function FreePages(curr: nat, bnry: nat): (n: int)
  {
    if bnry >= curr then bnry - curr else bnry + PAGES - curr
  }

  lemma FreePagesAre(head: nat, tail: nat)
    requires head <= tail < head + PAGES
    ensures FreePages(PageOf(tail), Behind(PageOf(head))) == head + PAGES - 1 - tail
  {
  }

  // ----- words of the board's memory

  function Long(b0: Byte, b1: Byte, b2: Byte, b3: Byte): (v: nat)
  {
    ((b0 * 256 + b1) * 256 + b2) * 256 + b3
  }

  /** v >> 8*j & 0xFF */
  function ByteIn(v: nat, j: nat): (b: Byte)
  {
    if j == 0 then v % 256 else if j == 1 then v / 0x100 % 256 else if j == 2 then v / 0x1_0000 % 256
    else v / 0x100_0000 % 256
  }

  lemma LongBytes(b0: Byte, b1: Byte, b2: Byte, b3: Byte)
    ensures var v := Long(b0, b1, b2, b3); ByteIn(v, 3) == b0 && ByteIn(v, 2) == b1 && ByteIn(v, 1) == b2 && ByteIn(v, 0) == b3
  {
    var v := Long(b0, b1, b2, b3);
    assert v / 0x100 == (b0 * 256 + b1) * 256 + b2;
    assert v / 0x1_0000 == b0 * 256 + b1;
    assert v / 0x100_0000 == b0;
  }

  // ----- where a frame is to be read

  /** From offset on lie the bytes of the frame's image from number k on. */
  ghost predicate Covers(p: Placed, k: nat, len: nat, offset: nat)
  {
    k + len <= 4 + |p.f.data| < RING && forall i: nat :: i < len ==> IsAt(p, k, offset, i)
  }

  predicate IsAt(p: Placed, k: nat, offset: nat, i: nat)
  {
    At(PAGE * p.v + (k + i)) == offset + i
  }

  lemma CoversIs(p: Placed, k: nat, len: nat, offset: nat)
    requires k + len <= 4 + |p.f.data| < RING
    requires if PAGE * PageOf(p.v) + k >= STOP * PAGE then offset == PAGE * PageOf(p.v) + k - RING
             else offset == PAGE * PageOf(p.v) + k && offset + len <= STOP * PAGE
    ensures Covers(p, k, len, offset)
  {
    forall i: nat | i < len
      ensures IsAt(p, k, offset, i)
    {
      BytesFollow(p.v, k + i);
    }
  }

  /** The header is in one piece at the beginning of its page; so are the bytes after it, up to the end of the ring;
      and the rest of them is at the beginning of the ring, and inside it. */
  lemma FramePlaces(p: Placed)
    requires 4 + |p.f.data| < RING
    ensures var offset, n := PAGE * PageOf(p.v) + 4, |p.f.data|;
            Covers(p, 0, 4, PAGE * PageOf(p.v))
            && if offset + n > STOP * PAGE then
                 var semi := STOP * PAGE - offset;
                 0 < semi < n && RX_START * PAGE + n - semi <= STOP * PAGE
                 && Covers(p, 4, semi, offset) && Covers(p, 4 + semi, n - semi, RX_START * PAGE)
               else Covers(p, 4, n, offset)
  {
    var offset, n := PAGE * PageOf(p.v) + 4, |p.f.data|;
    CoversIs(p, 0, 4, PAGE * PageOf(p.v));
    if offset + n > STOP * PAGE {
      var semi := STOP * PAGE - offset;
      CoversIs(p, 4, semi, offset);
      CoversIs(p, 4 + semi, n - semi, RX_START * PAGE);
    } else {
      CoversIs(p, 4, n, offset);
    }
  }

  /** A byte of a stored frame, where it is. */
  lemma CoveredByte(mem: seq<Byte>, p: Placed, k: nat, len: nat, offset: nat, i: nat)
    requires |mem| == STOP * PAGE && StoredAt(mem, p) && Covers(p, k, len, offset) && i < len
    ensures offset + i < STOP * PAGE && mem[offset + i] == Image(p.f, p.v)[k + i]
  {
    assert IsAt(p, k, offset, i);
    assert mem[At(PAGE * p.v + (k + i))] == Image(p.f, p.v)[k + i];
  }

  /** The size of the image, put together from its two bytes. */
  lemma SizeBytes(f: Frame, v: nat)
    requires 4 + |f.data| < RING
    ensures var low: nat, high: nat := Image(f, v)[2], Image(f, v)[3]; high * 256 + low == 4 + |f.data|
  {
  }

  function FramesOf(ps: seq<Placed>): (fs: seq<Frame>)
    ensures |fs| == |ps|
  {
    seq(|ps|, i requires 0 <= i < |ps| => ps[i].f)
  }
}
