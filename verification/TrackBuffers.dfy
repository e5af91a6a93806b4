/**
 The track buffers as they are written: a list in the order of use, whose entries are moved, refilled and
 freed in place.
 */
module TrackBuffers {

  import opened TrackCache
  import T = TrackCache

  class Floppies {
    const geometry: Geometry
    var disk: Disk          // the physical disks, behind get and put
    var tbc: seq<Slot>      // the list, its head first

    ghost function View(): (s: State)
      reads this
    {
      State(disk, tbc)
    }

    ghost predicate Valid()
      reads this
    {
      Inv(geometry, View()) && OnlyTracks(View())
    }

    /** tbcinit */
    constructor (g: Geometry, d: Disk)
      requires DiskOk(g, d) && forall k: Key :: k in d ==> T.Valid(k)
      ensures Valid() && geometry == g && Contents(View()) == d
      ensures forall i: nat :: i < TBCLEN ==> tbc[i] == Free
    {
      geometry, disk, tbc := g, d, seq(TBCLEN, _ => Free);
      new;
      ContentsOfEmpty(View());
    }

    static lemma ContentsOfEmpty(s: State)
      requires forall i: nat :: i < |s.cache| ==> s.cache[i] == Free
      ensures Contents(s) == s.disk
    {
      forall k: Key | k in s.disk
        ensures Logical(s, k) == s.disk[k]
      {
        NotCached(s.cache, k);
      }
      ContentsAre(s, s.disk);
    }

    /** put; its errors are ignored. */
    method Put(slot: Slot)
      requires slot.Held?
      modifies this`disk
      ensures disk == old(disk)[slot.key := slot.data]
    {
      disk := disk[slot.key := slot.data];
    }

    /** findtrk's loop: where the track is. */
    method Search(k: Key) returns (i: nat)
      ensures i == IndexOf(tbc, k)
    {
      i := 0;
      while i < |tbc|
        invariant i <= |tbc| && IndexOf(tbc, k) == i + IndexOf(tbc[i..], k)
      {
        if Holds(tbc[i], k) {
          return;
        }
        assert tbc[i..][1..] == tbc[i + 1..];
        i := i + 1;
      }
    }

    /** findtrk */
    method FindTrack(k: Key, read: bool, getOk: bool) returns (found: bool)
      requires Valid() && T.Valid(k)
      modifies this
      ensures Valid() && View() == Found(geometry, old(View()), k, read, getOk)
      ensures found <==> Holds(tbc[0], k)
    {
      FoundKeepsContents(geometry, View(), k, read, getOk);
      FoundIsInFront(geometry, View(), k, read, getOk);
      var i := Search(k);
      if i < TBCLEN {
        var probe := tbc[i];
        tbc := [probe] + tbc[..i] + tbc[i + 1..];
        return true;
      }
      var probe := tbc[TBCLEN - 1];
      assert SlotOk(geometry, disk, probe);
      tbc := [probe] + tbc[..TBCLEN - 1];
      if probe.Held? && probe.dirty {
        Put(probe);
      }
      found := Refill(k, read, getOk);
    }

    /** The second half of findtrk: the buffer in front gets its new contents. */
    method Refill(k: Key, read: bool, getOk: bool) returns (found: bool)
      requires |tbc| == TBCLEN && T.Valid(k) && k in disk
      modifies this`tbc
      ensures tbc == [NewSlot(geometry, disk, k, read, getOk)] + old(tbc)[1..]
      ensures found <==> !read || getOk
    {
      var slot := Free;
      if read {
        found := getOk;
        if found {
          slot := Held(k, disk[k], false, read);
        }
      } else {
        slot := Held(k, Zeros(geometry[k.drv]), true, read);
        found := true;
      }
      tbc := [slot] + tbc[1..];
    }

    /** flush */
    method Flush(drv: nat)
      requires Valid()
      modifies this
      ensures Valid() && View() == Flushed(old(View()), drv)
    {
      ghost var s := View();
      FlushIsPlain(geometry, s, drv);
      for n := 0 to TBCLEN
        invariant |tbc| == TBCLEN && View() == FlushedUpTo(s, drv, n)
      {
        FlushedSlots(s, drv, n);
        var slot := tbc[n];
        if slot.Held? && slot.key.drv == drv {
          if slot.dirty {
            Put(slot);
          }
          tbc := tbc[n := Free];
        }
      }
    }

    /** read: the block, or no block and perhaps an error. */
    method ReadBlock(drv: nat, bno: nat, getOk: bool) returns (result: Result)
      requires Valid() && drv < NDRIVES
      modifies this
      ensures Valid() && Answer(View(), result) == Read(geometry, old(View()), drv, bno, getOk)
    {
      ReadIsPlain(geometry, View(), drv, bno, getOk);
      if bno >= Blocks(geometry, drv) {
        return if bno != Blocks(geometry, drv) then Failed else End;
      }
      TrackIsValid(geometry, drv, bno);
      ghost var s := View();
      FoundIsInFront(geometry, s, TrackOf(geometry, drv, bno), true, getOk);
      var found := FindTrack(TrackOf(geometry, drv, bno), true, getOk);
      if !found {
        return Failed;
      }
      assert SlotOk(geometry, disk, tbc[0]);
      result := Done(tbc[0].data[Sector(geometry, drv, bno)]);
    }

    /** write */
    method WriteBlock(drv: nat, bno: nat, b: Block, getOk: bool) returns (result: Result)
      requires Valid() && drv < NDRIVES
      modifies this
      ensures Valid() && Answer(View(), result) == Write(geometry, old(View()), drv, bno, b, getOk)
    {
      WriteIsPlain(geometry, View(), drv, bno, b, getOk);
      if bno >= Blocks(geometry, drv) {
        return Failed;
      }
      TrackIsValid(geometry, drv, bno);
      ghost var s := View();
      FoundIsInFront(geometry, s, TrackOf(geometry, drv, bno), true, getOk);
      var found := FindTrack(TrackOf(geometry, drv, bno), true, getOk);
      if !found {
        return Failed;
      }
      var slot := tbc[0];
      assert SlotOk(geometry, disk, slot);
      tbc := tbc[0 := slot.(data := slot.data[Sector(geometry, drv, bno) := b], dirty := true)];
      result := Done(b);
    }

    /** format */
    method FormatBlock(drv: nat, bno: nat, b: Block, getOk: bool) returns (result: Result)
      requires Valid() && drv < NDRIVES
      modifies this
      ensures Valid() && Answer(View(), result) == Format(geometry, old(View()), drv, bno, b, getOk)
    {
      if bno < Blocks(geometry, drv) && Sector(geometry, drv, bno) == 0 {
        TrackIsValid(geometry, drv, bno);
        var _ := FindTrack(TrackOf(geometry, drv, bno), false, true);
      }
      result := WriteBlock(drv, bno, b, getOk);
    }

    /** The blocks from bno on, as a reader of d sees them. */
    ghost predicate BlocksFrom(d: Disk, drv: nat, bno: nat, blocks: seq<Block>)
      requires drv < NDRIVES
    {
      forall i: nat :: i < |blocks| ==> BlockAt(d, drv, bno + i, blocks[i])
    }

    ghost predicate Reading(d: Disk)
      reads this
    {
      Valid() && Contents(View()) == d
    }

    /** A block, as a reader of d sees it. */
    method ReadSeen(drv: nat, bno: nat, getOk: bool, ghost d: Disk) returns (result: Result)
      requires Reading(d) && drv < NDRIVES
      modifies this
      ensures Reading(d)
      ensures result == End <==> bno == Blocks(geometry, drv)
      ensures result.Done? ==> BlockAt(d, drv, bno, result.block)
    {
      ReadIsPlain(geometry, View(), drv, bno, getOk);
      result := ReadBlock(drv, bno, getOk);
    }

    /** One turn of rundevice's loop. */
    method ReadNext(drv: nat, bno: nat, getOk: bool, got: seq<Block>, ghost d: Disk) returns (result: Result, blocks: seq<Block>)
      requires Reading(d) && drv < NDRIVES && BlocksFrom(d, drv, bno, got)
      modifies this
      ensures Reading(d) && BlocksFrom(d, drv, bno, blocks)
      ensures |blocks| == |got| + if result.Done? then 1 else 0
      ensures result == End ==> bno + |blocks| == Blocks(geometry, drv)
    {
      result := ReadSeen(drv, bno + |got|, getOk, d);
      blocks := WithBlock(got, result);
      BlocksMore(d, drv, bno, got, result);
    }

    function WithBlock(got: seq<Block>, result: Result): (blocks: seq<Block>)
      ensures |blocks| == |got| + if result.Done? then 1 else 0
    {
      if result.Done? then got + [result.block] else got
    }

    lemma BlocksMore(d: Disk, drv: nat, bno: nat, got: seq<Block>, result: Result)
      requires drv < NDRIVES && BlocksFrom(d, drv, bno, got)
      requires result.Done? ==> BlockAt(d, drv, bno + |got|, result.block)
      ensures BlocksFrom(d, drv, bno, WithBlock(got, result))
    {
    }

    /** rundevice, for a request to read: blocks until the first that is not to be had. */
    method RunRead(drv: nat, bno: nat, count: nat, getOk: bool) returns (blocks: seq<Block>, error: bool)
      requires Valid() && drv < NDRIVES
      modifies this
      ensures Valid() && Contents(View()) == old(Contents(View()))
      ensures |blocks| <= count && BlocksFrom(Contents(View()), drv, bno, blocks)
      ensures |blocks| == count ==> !error
      ensures |blocks| < count && !error ==> bno + |blocks| == Blocks(geometry, drv)
    {
      blocks, error := [], false;
      ghost var d := Contents(View());
      while |blocks| < count
        invariant Reading(d) && BlocksFrom(d, drv, bno, blocks) && |blocks| <= count && !error
        decreases count - |blocks|
      {
        var result;
        result, blocks := ReadNext(drv, bno, getOk, blocks, d);
        if result.Failed? {
          return blocks, true;
        }
        if result.End? {
          return;
        }
      }
    }

    ghost predicate BlockAt(d: Disk, drv: nat, bno: nat, b: Block)
      requires drv < NDRIVES
    {
      var k, sec := TrackOf(geometry, drv, bno), Sector(geometry, drv, bno);
      k in d && sec < |d[k]| && d[k][sec] == b
    }

    /** incache */
    method InCache(k: Key) returns (there: bool)
      ensures there <==> Cached(View(), k)
    {
      var i := Search(k);
      there := i < |tbc|;
    }

    /** getnext */
    method GetNext(queue: seq<Request>) returns (next: Request, rest: seq<Request>)
      requires queue != [] && OnDrives(queue)
      ensures var i := Choice(geometry, View(), queue); next == queue[i] && rest == queue[..i] + queue[i + 1..]
    {
      var i := 0;
      while i < |queue|
        invariant i <= |queue| && forall j: nat :: j < i ==> !Cached(View(), Begins(geometry, queue[j]))
      {
        var there := InCache(Begins(geometry, queue[i]));
        if there {
          break;
        }
        i := i + 1;
      }
      if i == |queue| {
        i := 0;
      }
      next := queue[i];
      rest := queue[..i] + queue[i + 1..];
    }
  }
}
