/** The remote's input device: found by a scan or by notifications, held open through one descriptor, and
    read in the main loop. */
module Devices {
  import opened ByteSequences
  import Presses

  /** "/dev/input/" */
  const DIRECTORY: seq<Byte> := [47, 100, 101, 118, 47, 105, 110, 112, 117, 116, 47]
  /** "event" */
  const EVENT: seq<Byte> := [101, 118, 101, 110, 116]

  const DOT: Byte := 46

  const IN_CREATE := 0x100
  const HEADER := 16

  /** What opening a path and asking for its name gives. */
  datatype Probe = Refused | Foreign | G20

  // ----- batches of notifications

  /** One notification; its name, if it has one, is padded with zeros. */
  datatype Record = Record(wd: nat, mask: nat, cookie: nat, name: seq<Byte>, padding: nat)

  predicate IsRecord(r: Record) {
    && r.wd < TWO_32 && r.mask < TWO_32 && r.cookie < TWO_32
    && 0 !in r.name && (r.name == [] <==> r.padding == 0) && |r.name| + r.padding < TWO_32
  }

  function Uint32(n: nat): (s: seq<Byte>)
    ensures |s| == 4
  {
    Bytes(4, n)
  }

  function Encode(r: Record): (s: seq<Byte>)
    ensures |s| == HEADER + |r.name| + r.padding
  {
    Uint32(r.wd) + (Uint32(r.mask) + (Uint32(r.cookie) + (Uint32(|r.name| + r.padding) + (r.name + Zeros(r.padding)))))
  }

  function Batch(rs: seq<Record>): (s: seq<Byte>) {
    if rs == [] then [] else Batch(rs[..|rs| - 1]) + Encode(rs[|rs| - 1])
  }

  function Uint32At(buf: seq<Byte>, pos: nat): (n: nat)
    requires pos + 4 <= |buf|
  {
    Number(Piece(buf, pos, 4))
  }

  lemma Uint32RoundTrip(n: nat, buf: seq<Byte>, pos: nat)
    requires n < TWO_32 && At(Uint32(n), buf, pos)
    ensures Uint32At(buf, pos) == n
  {
    Bounds();
    NumberOfBytes(4, n);
  }

  /** The bytes up to the first zero. */
  function NameAt(buf: seq<Byte>, pos: nat): (name: seq<Byte>)
    decreases |buf| - pos
  {
    if pos >= |buf| || buf[pos] == 0 then [] else [buf[pos]] + NameAt(buf, pos + 1)
  }

  lemma {:induction false} NameRoundTrip(name: seq<Byte>, buf: seq<Byte>, pos: nat)
    requires 0 !in name && At(name, buf, pos) && pos + |name| < |buf| && buf[pos + |name|] == 0
    ensures NameAt(buf, pos) == name
    decreases |name|
  {
    if name != [] {
      assert buf[pos] == buf[pos..pos + |name|][0] == name[0];
      AtParts(name[..1], name[1..], buf, pos) by {
        assert name[..1] + name[1..] == name;
      }
      NameRoundTrip(name[1..], buf, pos + 1);
    }
  }

  /** Where record `i` of a batch starts. */
  function Offset(rs: seq<Record>, i: nat): (n: nat)
    requires i <= |rs|
  {
    |Batch(rs[..i])|
  }

  lemma AtInPrefix(piece: seq<Byte>, prefix: seq<Byte>, buf: seq<Byte>, pos: nat)
    requires At(piece, prefix, pos) && prefix <= buf
    ensures At(piece, buf, pos)
  {
    assert buf[..|prefix|] == prefix;
    assert buf[pos..pos + |piece|] == prefix[pos..pos + |piece|];
  }

  lemma BatchParts(rs: seq<Record>, i: nat, buf: seq<Byte>)
    requires i < |rs| && buf == Batch(rs)
    ensures At(Encode(rs[i]), buf, Offset(rs, i))
    ensures Offset(rs, i + 1) == Offset(rs, i) + |Encode(rs[i])| <= |buf|
  {
    hide Encode;
    var a, b := Batch(rs[..i]), Encode(rs[i]);
    assert rs[..i + 1][..i] == rs[..i] && rs[..i + 1][i] == rs[i];
    assert Batch(rs[..i + 1]) == a + b;
    BatchPrefix(rs, i + 1);
    hide Batch;
    assert At(a + b, a + b, 0);
    AtParts(a, b, a + b, 0);
    AtInPrefix(b, a + b, buf, |a|);
  }

  lemma {:induction false} BatchPrefix(rs: seq<Record>, i: nat)
    requires i <= |rs|
    ensures Batch(rs[..i]) <= Batch(rs)
    decreases |rs|
  {
    if i == |rs| {
      assert rs[..i] == rs;
    } else {
      BatchPrefix(rs[..|rs| - 1], i);
      assert rs[..|rs| - 1][..i] == rs[..i];
    }
  }

  lemma OffsetAtEnd(rs: seq<Record>)
    ensures Offset(rs, 0) == 0 && Offset(rs, |rs|) == |Batch(rs)|
  {
    assert rs[..|rs|] == rs;
  }

  lemma RecordParts(r: Record, buf: seq<Byte>, pos: nat)
    requires At(Encode(r), buf, pos)
    ensures At(Uint32(r.mask), buf, pos + 4) && At(Uint32(|r.name| + r.padding), buf, pos + 12)
    ensures At(r.name, buf, pos + HEADER) && At(Zeros(r.padding), buf, pos + HEADER + |r.name|)
  {
    var len := |r.name| + r.padding;
    var d := r.name + Zeros(r.padding);
    var c := Uint32(len) + d;
    var b := Uint32(r.cookie) + c;
    assert Encode(r) == Uint32(r.wd) + (Uint32(r.mask) + b);
    hide Uint32, At, Zeros;
    AtParts(Uint32(r.wd), Uint32(r.mask) + b, buf, pos);
    AtParts(Uint32(r.mask), b, buf, pos + 4);
    AtParts(Uint32(r.cookie), c, buf, pos + 8);
    AtParts(Uint32(len), d, buf, pos + 12);
    AtParts(r.name, Zeros(r.padding), buf, pos + HEADER);
  }

  /** What the fields of a record read as, where it stands. */
  lemma RecordRoundTrip(r: Record, buf: seq<Byte>, pos: nat)
    requires IsRecord(r) && At(Encode(r), buf, pos)
    ensures pos + HEADER <= |buf| && Uint32At(buf, pos + 4) == r.mask && Uint32At(buf, pos + 12) == |r.name| + r.padding
    ensures r.name != [] ==> NameAt(buf, pos + HEADER) == r.name
  {
    RecordParts(r, buf, pos);
    hide Uint32, Uint32At, NameAt, Encode;
    Uint32RoundTrip(r.mask, buf, pos + 4);
    Uint32RoundTrip(|r.name| + r.padding, buf, pos + 12);
    if r.name != [] {
      var z := pos + HEADER + |r.name|;
      assert buf[z] == buf[z..z + r.padding][0] == Zeros(r.padding)[0];
      NameRoundTrip(r.name, buf, pos + HEADER);
    }
  }

  /** The same with every byte written out: where the fields are, lowest byte first, and what fills the end. */
  lemma RecordLayout(r: Record)
    requires IsRecord(r)
    ensures var b := Encode(r);
      && |b| == 16 + |r.name| + r.padding
      && b[4..8] == LowestFirst(r.mask) && b[12..16] == LowestFirst(|r.name| + r.padding)
      && b[16..16 + |r.name|] == r.name
      && forall i | 16 + |r.name| <= i < |b| :: b[i] == 0
  {
    var b := Encode(r);
    assert At(b, b, 0);
    RecordParts(r, b, 0);
    FourBytes(r.mask);
    FourBytes(|r.name| + r.padding);
    hide Uint32, Encode, Zeros;
    assert b[16..16 + |r.name|] == r.name;
    forall i | 16 + |r.name| <= i < |b|
      ensures b[i] == 0
    {
      ZeroAt(r.padding, b, 16 + |r.name|, i);
    }
  }

  lemma ZeroAt(n: nat, b: seq<Byte>, at: nat, i: nat)
    requires At(Zeros(n), b, at) && at <= i < at + n
    ensures b[i] == 0
  {
    assert b[at..at + n][i - at] == Zeros(n)[i - at];
  }

  // ----- what notifications do to the device

  function PathOf(name: seq<Byte>): (p: seq<Byte>)
    ensures p != []
  {
    DIRECTORY + name
  }

  predicate Creates(mask: nat) {
    mask / IN_CREATE % 2 == 1
  }

  /** The paths and the bit as the source spells them. */
  lemma SpelledOut(name: seq<Byte>, mask: nat)
    ensures PathOf(name)[11..] == name && forall i | 0 <= i < 11 :: PathOf(name)[i] as char == "/dev/input/"[i]
    ensures |EVENT| == 5 && forall i | 0 <= i < 5 :: EVENT[i] as char == "event"[i]
    ensures Creates(mask) <==> mask % 0x200 >= 0x100
  {
  }

  /** The kernel's answers: what probing gives at each point, and a descriptor that is not the one in use. */
  datatype Kernel = Kernel(probe: nat -> Probe, descriptor: (nat, int) -> int)

  ghost predicate IsKernel(k: Kernel) {
    forall at, inUse :: k.descriptor(at, inUse) >= 0 && k.descriptor(at, inUse) != inUse
  }

  /** The open device's path after one notification; empty when there is none. */
  function Effect(path: seq<Byte>, mask: nat, name: seq<Byte>, probe: Probe): (p: seq<Byte>) {
    if name == [] then path
    else if Creates(mask) then (if probe == G20 then PathOf(name) else path)
    else if path == PathOf(name) then [] else path
  }

  function After(prior: seq<Byte>, rs: seq<Record>, k: Kernel, n: nat): (p: seq<Byte>)
    requires n <= |rs|
  {
    if n == 0 then prior
    else Effect(After(prior, rs, k, n - 1), rs[n - 1].mask, rs[n - 1].name, k.probe(Offset(rs, n - 1)))
  }

  /** Record `i` reports a device that is then opened. */
  predicate Opens(rs: seq<Record>, k: Kernel, i: nat)
    requires i < |rs|
  {
    rs[i].name != [] && Creates(rs[i].mask) && k.probe(Offset(rs, i)) == G20
  }

  /** Record `i` takes away what is at `path`. */
  predicate Deletes(rs: seq<Record>, i: nat, path: seq<Byte>)
    requires i < |rs|
  {
    rs[i].name != [] && !Creates(rs[i].mask) && PathOf(rs[i].name) == path
  }

  /** From record `i` on, before record `n`, nothing else is opened and `path` is not taken away. */
  ghost predicate Stays(rs: seq<Record>, k: Kernel, i: nat, n: nat, path: seq<Byte>)
    requires n <= |rs|
  {
    forall j | i <= j < n :: !Opens(rs, k, j) && !Deletes(rs, j, path)
  }

  ghost predicate LastOpened(rs: seq<Record>, k: Kernel, i: nat, n: nat, path: seq<Byte>)
    requires n <= |rs|
  {
    i < n && Opens(rs, k, i) && PathOf(rs[i].name) == path && Stays(rs, k, i + 1, n, path)
  }

  ghost predicate OpenedLast(prior: seq<Byte>, rs: seq<Record>, k: Kernel, n: nat, path: seq<Byte>)
    requires n <= |rs|
  {
    (exists i: nat :: LastOpened(rs, k, i, n, path)) || (prior == path && Stays(rs, k, 0, n, path))
  }

  /** `path` is open after a record if the record opens it, or if it was open and the record neither opens
      another nor deletes it. */
  lemma OneRecord(prior: seq<Byte>, rs: seq<Record>, k: Kernel, n: nat, path: seq<Byte>)
    requires 0 < n <= |rs| && path != []
    ensures After(prior, rs, k, n) == path <==>
      if Opens(rs, k, n - 1) then PathOf(rs[n - 1].name) == path
      else After(prior, rs, k, n - 1) == path && !Deletes(rs, n - 1, path)
  {
    hide PathOf, Offset;
  }

  lemma OneMoreStays(rs: seq<Record>, k: Kernel, i: nat, n: nat, path: seq<Byte>)
    requires i < n <= |rs|
    ensures Stays(rs, k, i, n, path) <==>
      Stays(rs, k, i, n - 1, path) && !Opens(rs, k, n - 1) && !Deletes(rs, n - 1, path)
  {
    hide Opens, Deletes;
  }

  lemma OpenedJustNow(prior: seq<Byte>, rs: seq<Record>, k: Kernel, n: nat, path: seq<Byte>)
    requires 0 < n <= |rs| && Opens(rs, k, n - 1)
    ensures OpenedLast(prior, rs, k, n, path) <==> PathOf(rs[n - 1].name) == path
  {
    hide Opens, Deletes, PathOf;
    assert PathOf(rs[n - 1].name) == path ==> LastOpened(rs, k, n - 1, n, path);
  }

  lemma NotOpenedNow(prior: seq<Byte>, rs: seq<Record>, k: Kernel, n: nat, path: seq<Byte>)
    requires 0 < n <= |rs| && !Opens(rs, k, n - 1)
    ensures OpenedLast(prior, rs, k, n, path) <==>
      OpenedLast(prior, rs, k, n - 1, path) && !Deletes(rs, n - 1, path)
  {
    hide Opens, Deletes, PathOf, Stays;
    OneMoreStays(rs, k, 0, n, path);
    if i: nat :| LastOpened(rs, k, i, n, path) {
      SameLastOpened(rs, k, i, n, path);
    }
    var m: nat := n - 1;
    if i: nat :| LastOpened(rs, k, i, m, path) {
      SameLastOpened(rs, k, i, n, path);
    }
  }

  lemma SameLastOpened(rs: seq<Record>, k: Kernel, i: nat, n: nat, path: seq<Byte>)
    requires 0 < n <= |rs| && !Opens(rs, k, n - 1)
    ensures LastOpened(rs, k, i, n, path) <==> LastOpened(rs, k, i, n - 1, path) && !Deletes(rs, n - 1, path)
  {
    hide Opens, Deletes, PathOf, Stays;
    if i + 1 < n {
      OneMoreStays(rs, k, i + 1, n, path);
    }
  }

  /** A device is open after a batch exactly when its successful creation is the last successful one and it
      is not deleted later, or when it was open before, nothing else was opened and it was not deleted. */
  lemma {:induction false} OpenAfter(prior: seq<Byte>, rs: seq<Record>, k: Kernel, n: nat, path: seq<Byte>)
    requires n <= |rs| && path != []
    ensures After(prior, rs, k, n) == path <==> OpenedLast(prior, rs, k, n, path)
  {
    if n > 0 {
      hide After, OpenedLast, Opens, Deletes;
      OpenAfter(prior, rs, k, n - 1, path);
      OneRecord(prior, rs, k, n, path);
      if Opens(rs, k, n - 1) {
        OpenedJustNow(prior, rs, k, n, path);
      } else {
        NotOpenedNow(prior, rs, k, n, path);
      }
    }
  }

  // ----- the daemon's device

  class Device {
    /** The open device's path, empty when there is none; its descriptor, or -1; how many descriptors are polled. */
    var path: seq<Byte>
    var fd: int
    var nfds: int
    /** The descriptors that probing has opened and not closed. */
    ghost var open: set<int>
    /** What the parser has read: the mask and name of each notification, in order. */
    ghost var seen: seq<(nat, seq<Byte>)>

    ghost predicate Valid()
      reads this
    {
      && (path != [] <==> fd > -1)
      && nfds == (if fd > -1 then 3 else 2)
      && open == if fd > -1 then {fd} else {}
    }

    constructor ()
      ensures Valid() && path == [] && seen == []
    {
      path, fd, nfds := [], -1, 2;
      open, seen := {}, [];
    }

    method Close()
      modifies this`path, this`fd, this`nfds, this`open
      ensures path == [] && fd == (if old(fd) > -1 then -1 else old(fd)) && nfds == 2
      ensures open == if old(fd) > -1 then old(open) - {old(fd)} else old(open)
    {
      path := [];
      if fd > -1 {
        open := open - {fd};
        fd := -1;
      }
      nfds := 2;
    }

    /** Probes the device at `devname`: `probe` is what it turns out to be, `newFd` the descriptor it gets. */
    method Open(devname: seq<Byte>, probe: Probe, newFd: int) returns (ok: bool)
      requires Valid() && devname != [] && newFd >= 0 && newFd != fd
      modifies this`path, this`fd, this`nfds, this`open
      ensures Valid() && ok == (probe == G20)
      ensures path == if ok then devname else old(path)
      ensures fd == if ok then newFd else old(fd)
    {
      if probe != Refused {
        open := open + {newFd};
        if probe == G20 {
          Close();
          path := devname;
          fd := newFd;
          nfds := 3;
          return true;
        }
        open := open - {newFd};
      }
      return false;
    }

    /** One notification, found at `at` in the buffer. */
    method Notified(mask: nat, name: seq<Byte>, at: nat, k: Kernel)
      requires Valid() && IsKernel(k)
      modifies this
      ensures Valid() && path == Effect(old(path), mask, name, k.probe(at)) && seen == old(seen) + [(mask, name)]
    {
      seen := seen + [(mask, name)];
      if name != [] {
        var devname := DIRECTORY + name;
        if Creates(mask) {
          var _ := Open(devname, k.probe(at), k.descriptor(at, fd));
        } else if path == devname {
          Close();
        }
      }
    }

    /** Reads a batch of notifications, whose bytes are `buf`. */
    method ReadNotifications(buf: seq<Byte>, ghost rs: seq<Record>, k: Kernel)
      requires Valid() && IsKernel(k) && buf == Batch(rs) && forall r | r in rs :: IsRecord(r)
      modifies this
      ensures Valid() && path == After(old(path), rs, k, |rs|)
      ensures seen == old(seen) + Contents(rs, |rs|)
    {
      var res, eventPos := |buf|, 0;
      ghost var i := 0;
      OffsetAtEnd(rs);
      hide Batch, Offset, Uint32At, NameAt, Effect, IsKernel;
      while res >= HEADER
        invariant i <= |rs| && eventPos == Offset(rs, i) && eventPos + res == |buf| && res >= 0
        invariant Valid() && path == After(old(path), rs, k, i) && seen == old(seen) + Contents(rs, i)
        decreases res
      {
        RecordAt(rs, i, buf);
        var len := Uint32At(buf, eventPos + 12);
        Notified(Uint32At(buf, eventPos + 4), if len > 0 then NameAt(buf, eventPos + HEADER) else [], eventPos, k);
        var eventSize := HEADER + len;
        res := res - eventSize;
        eventPos := eventPos + eventSize;
        i := i + 1;
      }
      AllRead(rs, i);
    }

    /** Looks for the remote among the entries of the device directory, and stops at the first. */
    method ScanDirectory(entries: seq<seq<Byte>>, k: Kernel)
      requires Valid() && IsKernel(k)
      modifies this`path, this`fd, this`nfds, this`open
      ensures Valid()
      ensures forall i: nat | i < |entries| && IsRemote(entries, k, i) && NoRemote(entries, k, i) ::
        path == PathOf(entries[i])
      ensures NoRemote(entries, k, |entries|) ==> path == old(path)
    {
      var i := 0;
      while i < |entries|
        invariant i <= |entries| && Valid() && NoRemote(entries, k, i) && path == old(path)
      {
        var name := entries[i];
        if name == [DOT] || name == [DOT, DOT] || !(EVENT <= name) {
          i := i + 1;
          continue;
        }
        var ok := Open(DIRECTORY + name, k.probe(i), k.descriptor(i, fd));
        if ok {
          assert IsRemote(entries, k, i);
          return;
        }
        i := i + 1;
      }
    }
  }

  /** An entry for an input device that turns out to be the remote. */
  predicate IsRemote(entries: seq<seq<Byte>>, k: Kernel, i: nat)
    requires i < |entries|
  {
    EVENT <= entries[i] && k.probe(i) == G20
  }

  ghost predicate NoRemote(entries: seq<seq<Byte>>, k: Kernel, n: nat)
    requires n <= |entries|
  {
    forall i | 0 <= i < n :: !IsRemote(entries, k, i)
  }

  function Contents(rs: seq<Record>, n: nat): (cs: seq<(nat, seq<Byte>)>)
    requires n <= |rs|
    ensures |cs| == n && forall i | 0 <= i < n :: cs[i] == (rs[i].mask, rs[i].name)
  {
    if n == 0 then [] else Contents(rs, n - 1) + [(rs[n - 1].mask, rs[n - 1].name)]
  }

  /** While at least a header is left, there is a record, and it reads back. */
  lemma RecordAt(rs: seq<Record>, i: nat, buf: seq<Byte>)
    requires i <= |rs| && buf == Batch(rs) && |buf| - Offset(rs, i) >= HEADER && forall r | r in rs :: IsRecord(r)
    ensures i < |rs| && Offset(rs, i) + HEADER <= |buf|
    ensures var r, pos := rs[i], Offset(rs, i);
      && Uint32At(buf, pos + 4) == r.mask && Uint32At(buf, pos + 12) == |r.name| + r.padding
      && (r.name != [] ==> NameAt(buf, pos + HEADER) == r.name)
      && (r.name == [] <==> |r.name| + r.padding == 0)
      && Offset(rs, i + 1) == pos + HEADER + |r.name| + r.padding <= |buf|
  {
    hide Uint32At, NameAt, Batch, Offset, Encode;
    OffsetAtEnd(rs);
    assert i < |rs|;
    BatchParts(rs, i, buf);
    assert rs[i] in rs;
    RecordRoundTrip(rs[i], buf, Offset(rs, i));
  }

  /** When less than a header is left, every record has been read. */
  lemma AllRead(rs: seq<Record>, i: nat)
    requires i <= |rs| && |Batch(rs)| - Offset(rs, i) < HEADER
    ensures i == |rs|
  {
    if i < |rs| {
      BatchParts(rs, i, Batch(rs));
    }
  }

  // ----- the main loop

  datatype Option<T> = None | Some(value: T)

  class Daemon {
    const device: Device
    const tracker: Presses.Tracker
    /** Everything the press tracker has been told. */
    ghost var told: seq<Presses.Input>

    /** The press in hand and all dispatches are those of the run over what was told. */
    ghost predicate Valid()
      reads this, device, tracker
    {
      && device.Valid() && tracker.Valid()
      && Presses.Run(Presses.IDLE, told, tracker.size) == Presses.Outcome(tracker.InHand(), tracker.log)
    }

    /** The daemon starts with no device and then scans for one. */
    constructor (entries: seq<seq<Byte>>, k: Kernel, size: int)
      requires Presses.IsRange(size) && IsKernel(k)
      ensures Valid() && fresh(device) && fresh(tracker) && told == [] && tracker.log == []
      ensures NoRemote(entries, k, |entries|) ==> device.path == []
      ensures forall i: nat | i < |entries| && IsRemote(entries, k, i) && NoRemote(entries, k, i) ::
        device.path == PathOf(entries[i])
    {
      device := new Device();
      tracker := new Presses.Tracker(size);
      told := [];
      new;
      device.ScanDirectory(entries, k);
    }

    /** One round of the loop. `batch` is what the notifications say, if there are any; `event` is the event
        read whole from the device, if it is polled, ready, and gives one. */
    method Round(batch: Option<seq<Byte>>, ghost rs: seq<Record>, k: Kernel, event: Option<Presses.Event>)
      requires Valid() && IsKernel(k)
      requires batch.Some? ==> batch.value == Batch(rs) && forall r | r in rs :: IsRecord(r)
      modifies device, tracker, this`told
      ensures Valid()
      ensures device.path == if batch.Some? then After(old(device.path), rs, k, |rs|) else old(device.path)
      ensures device.path != [] && event.Some? ==> told == old(told) + [Presses.Read(event.value)]
      ensures device.path != [] && event.None? ==> told == old(told)
      ensures device.path == [] ==> told == old(told) + [Presses.Detached]
    {
      if batch.Some? {
        device.ReadNotifications(batch.value, rs, k);
      }
      Tell(event);
    }

    /** The part of a round after the notifications: the press tracker is reset, or given the event. */
    method Tell(event: Option<Presses.Event>)
      requires Valid()
      modifies tracker, this`told
      ensures Valid() && told == old(told) + Telling(device.path != [], event)
    {
      hide Presses.Run, Presses.Step;
      ghost var input := Telling(device.path != [], event);
      Presses.RunMore(Presses.IDLE, told, input, tracker.size);
      hide Presses.IsRange;
      told := told + input;
      if device.nfds < 3 {
        tracker.Reset();
        return;
      }
      if event.None? {
        return;
      }
      tracker.Handle(event.value);
    }

    /** The main loop, for as many rounds as there are turns. If some device is open after each batch and the
        events read are presses that do not overlap, amid others, it dispatches just those presses. */
    method Serve(turns: seq<Turn>, ghost strokes: seq<Presses.Stroke>)
      requires Valid() && forall turn | turn in turns :: IsTurn(turn)
      modifies device, tracker, this`told
      ensures Valid() && device.path == PathAfter(old(device.path), turns, |turns|)
      ensures Attached(old(device.path), turns, |turns|) ==> told == old(told) + Presses.Reads(EventsRead(turns))
      ensures old(Ready(turns, strokes)) ==>
        && tracker.InHand() == Presses.IDLE
        && tracker.log == old(tracker.log) + Presses.AllMeant(strokes, tracker.size)
    {
      ghost var was, ready := told, Ready(turns, strokes);
      if ready {
        Dispatched(was, EventsRead(turns), strokes, tracker.size);
      }
      hide PathAfter, Attached, EventsRead, IsTurn, Presses.Reads, Presses.Run, Presses.AllMeant;
      Rounds(turns);
    }

    method Rounds(turns: seq<Turn>)
      requires Valid() && forall turn | turn in turns :: IsTurn(turn)
      modifies device, tracker, this`told
      ensures Valid() && device.path == PathAfter(old(device.path), turns, |turns|)
      ensures Attached(old(device.path), turns, |turns|) ==> told == old(told) + Presses.Reads(EventsRead(turns))
    {
      ghost var path, was := device.path, told;
      NoTurns(turns, path);
      hide PathAfter, Attached, EventsRead, IsTurn, Presses.Reads, Valid;
      for i := 0 to |turns|
        invariant Valid() && HasServed(turns, i, path, was)
      {
        NextTurn(turns, i, path, was);
      }
      assert turns[..|turns|] == turns;
    }

    /** Where the daemon is after `i` rounds that started from `path` and `was`. */
    ghost predicate HasServed(turns: seq<Turn>, i: nat, path: seq<Byte>, was: seq<Presses.Input>)
      requires i <= |turns|
      reads this, device
    {
      && device.path == PathAfter(path, turns, i)
      && (Attached(path, turns, i) ==> told == was + Presses.Reads(EventsRead(turns[..i])))
    }

    method NextTurn(turns: seq<Turn>, i: nat, ghost path: seq<Byte>, ghost was: seq<Presses.Input>)
      requires Valid() && i < |turns| && IsTurn(turns[i]) && HasServed(turns, i, path, was)
      modifies device, tracker, this`told
      ensures Valid() && HasServed(turns, i + 1, path, was)
    {
      OneTurn(turns, i, path);
      hide PathAfter, Attached, EventsRead, After, IsTurn, Presses.Reads, Valid;
      ServeOne(turns[i]);
    }

    method ServeOne(turn: Turn)
      requires Valid() && IsTurn(turn)
      modifies device, tracker, this`told
      ensures Valid()
      ensures device.path == if turn.records.None? then old(device.path)
                             else After(old(device.path), turn.records.value, turn.kernel, |turn.records.value|)
      ensures device.path != [] ==>
        told == old(told) + if turn.event.Some? then [Presses.Read(turn.event.value)] else []
    {
      if turn.records.Some? {
        var rs := turn.records.value;
        Round(Some(Batch(rs)), rs, turn.kernel, turn.event);
      } else {
        Round(None, [], turn.kernel, turn.event);
      }
    }

    /** Whether the tracker has no press in hand, and some device is open throughout `turns`, and the events read
        in them are those of `strokes`, amid events of other types. */
    ghost predicate Ready(turns: seq<Turn>, strokes: seq<Presses.Stroke>)
      reads this, device, tracker
    {
      && tracker.InHand() == Presses.IDLE && Attached(device.path, turns, |turns|)
      && (forall s | s in strokes :: Presses.IsStroke(s))
      && Presses.Signals(EventsRead(turns)) == Presses.AllEvents(strokes)
    }
  }

  /** What one round meets: the notifications read, if any; what the kernel answers; the event read, if any. */
  datatype Turn = Turn(records: Option<seq<Record>>, kernel: Kernel, event: Option<Presses.Event>)

  ghost predicate IsTurn(turn: Turn) {
    IsKernel(turn.kernel) && (turn.records.Some? ==> forall r | r in turn.records.value :: IsRecord(r))
  }

  /** The open device's path after `n` rounds. */
  function PathAfter(prior: seq<Byte>, turns: seq<Turn>, n: nat): (path: seq<Byte>)
    requires n <= |turns|
  {
    if n == 0 then prior
    else
      var before, turn := PathAfter(prior, turns, n - 1), turns[n - 1];
      if turn.records.None? then before
      else After(before, turn.records.value, turn.kernel, |turn.records.value|)
  }

  /** Some device is open in each of the first `n` rounds once the notifications have been read. */
  ghost predicate Attached(prior: seq<Byte>, turns: seq<Turn>, n: nat)
    requires n <= |turns|
  {
    forall i | 0 < i <= n :: PathAfter(prior, turns, i) != []
  }

  function EventsRead(turns: seq<Turn>): (es: seq<Presses.Event>) {
    if turns == [] then []
    else
      var event := turns[|turns| - 1].event;
      EventsRead(turns[..|turns| - 1]) + if event.Some? then [event.value] else []
  }

  lemma NoTurns(turns: seq<Turn>, prior: seq<Byte>)
    ensures PathAfter(prior, turns, 0) == prior && Attached(prior, turns, 0)
    ensures Presses.Reads(EventsRead(turns[..0])) == []
  {
  }

  lemma OneTurn(turns: seq<Turn>, i: nat, prior: seq<Byte>)
    requires i < |turns|
    ensures var before, turn := PathAfter(prior, turns, i), turns[i];
      PathAfter(prior, turns, i + 1) ==
        if turn.records.None? then before
        else After(before, turn.records.value, turn.kernel, |turn.records.value|)
    ensures Attached(prior, turns, i + 1) <==> Attached(prior, turns, i) && PathAfter(prior, turns, i + 1) != []
    ensures var event := turns[i].event;
      Presses.Reads(EventsRead(turns[..i + 1]))
        == Presses.Reads(EventsRead(turns[..i])) + if event.Some? then [Presses.Read(event.value)] else []
  {
    hide After;
    assert turns[..i + 1][..i] == turns[..i];
  }

  /** Events read that are those of presses that do not overlap, after a run that left none in hand. */
  lemma Dispatched(told: seq<Presses.Input>, es: seq<Presses.Event>, strokes: seq<Presses.Stroke>, size: int)
    requires Presses.IsRange(size) && (forall s | s in strokes :: Presses.IsStroke(s))
    requires Presses.Signals(es) == Presses.AllEvents(strokes)
    requires Presses.Run(Presses.IDLE, told, size).press == Presses.IDLE
    ensures Presses.Run(Presses.IDLE, told + Presses.Reads(es), size)
         == Presses.Outcome(Presses.IDLE, Presses.Run(Presses.IDLE, told, size).log + Presses.AllMeant(strokes, size))
  {
    Presses.RunAppend(Presses.IDLE, told, Presses.Reads(es), size);
    Presses.PressesAreDispatched(es, strokes, size);
  }

  /** What a round tells the press tracker: that there is no device, an event, or nothing. */
  function Telling(attached: bool, event: Option<Presses.Event>): (inputs: seq<Presses.Input>) {
    if !attached then [Presses.Detached] else if event.None? then [] else [Presses.Read(event.value)]
  }

  /** Some device is open after a batch: one that a record opens last and none deletes later, or the one that
      was open before, if no record opens another or deletes it. */
  ghost predicate StillAttached(prior: seq<Byte>, rs: seq<Record>, k: Kernel) {
    || (exists i: nat :: i < |rs| && LastOpened(rs, k, i, |rs|, PathOf(rs[i].name)))
    || (prior != [] && Stays(rs, k, 0, |rs|, prior))
  }

  lemma AttachedAfter(prior: seq<Byte>, rs: seq<Record>, k: Kernel)
    ensures After(prior, rs, k, |rs|) != [] <==> StillAttached(prior, rs, k)
  {
    hide After, Stays, Opens, PathOf;
    var path := After(prior, rs, k, |rs|);
    if path != [] {
      OpenAfter(prior, rs, k, |rs|, path);
    }
    if i: nat :| i < |rs| && LastOpened(rs, k, i, |rs|, PathOf(rs[i].name)) {
      OpenAfter(prior, rs, k, |rs|, PathOf(rs[i].name));
    }
    if prior != [] && Stays(rs, k, 0, |rs|, prior) {
      OpenAfter(prior, rs, k, |rs|, prior);
    }
  }

  /** When a batch keeps a press in hand: exactly when some device is open after it, whichever it is. */
  lemma PressIsKept(prior: seq<Byte>, rs: seq<Record>, k: Kernel, p: Presses.Press, size: int)
    requires Presses.IsRange(size) && p != Presses.IDLE
    ensures Presses.Run(p, Telling(After(prior, rs, k, |rs|) != [], None), size).press == p
       <==> StillAttached(prior, rs, k)
  {
    AttachedAfter(prior, rs, k);
    hide After, StillAttached;
    assert [Presses.Detached][..0] == [];
  }

  /** A device taken away and another found in the same batch: there is a device again before the main loop
      looks, so that the press in hand is kept, though it was made on the other device. */
  lemma ReplacedInOneBatch(gone: Record, found: Record, k: Kernel, p: Presses.Press, size: int)
    requires Presses.IsRange(size) && gone.name != [] && !Creates(gone.mask) && found.name != [] && Creates(found.mask)
    requires k.probe(Offset([gone, found], 1)) == G20
    ensures var path := After(PathOf(gone.name), [gone, found], k, 2);
      path == PathOf(found.name) && Presses.Run(p, Telling(path != [], None), size).press == p
    ensures var path := After(PathOf(gone.name), [gone], k, 1);
      path == [] && Presses.Run(p, Telling(path != [], None), size).press == Presses.IDLE
  {
    assert [gone, found][0] == gone && [gone, found][1] == found;
    hide Offset, PathOf;
    assert After(PathOf(gone.name), [gone, found], k, 1) == [];
    assert [Presses.Detached][..0] == [];
  }
}
