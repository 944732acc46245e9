/** Whether the activity manager's reply says that Kodi is in front: the header checks, the heuristic scan
    for the end of the Intent, and the comparison of the activity name that follows it. */
module KodiScan {
  import opened ByteSequences
  import opened ParcelFormat
  import opened Parcels

  const USER_CURRENT := -2
  const EMPTY_EXTRAS := -1

  /** "org.xbmc.kodi" in UTF-16. */
  const KODI: seq<nat> := [111, 114, 103, 46, 120, 98, 109, 99, 46, 107, 111, 100, 105]

  /** The word `i` places after `start`; zero past the end, as the read gives. */
  function Nth(buf: seq<Byte>, start: nat, i: nat): (n: int) {
    WordAt(buf, start + 4 * i)
  }

  /** How many words in a row, ending with word `i`, are the user hint. */
  function Run(buf: seq<Byte>, start: nat, i: nat): (r: nat)
    ensures r <= i + 1
  {
    if Nth(buf, start, i) != USER_CURRENT then 0 else if i == 0 then 1 else 1 + Run(buf, start, i - 1)
  }

  /** Word `k` is where the scan can recognise the marker: the pair is there, an odd run of hints ends
      with its first word, and unless it is the very first word, sixteen bytes were left before it. */
  predicate Marker(buf: seq<Byte>, start: nat, k: nat) {
    && Nth(buf, start, k) == USER_CURRENT
    && Nth(buf, start, k + 1) == EMPTY_EXTRAS
    && Run(buf, start, k) % 2 == 1
    && (k == 0 || start + 4 * k + 16 <= |buf|)
  }

  ghost predicate FirstMarker(buf: seq<Byte>, start: nat, k: nat) {
    Marker(buf, start, k) && forall j | 0 <= j < k :: !Marker(buf, start, j)
  }

  /** What is known when a round of the loop starts at word `i`: no marker so far, and the word before
      does not end an odd run. */
  ghost predicate Before(buf: seq<Byte>, start: nat, i: nat) {
    (i == 0 || Run(buf, start, i - 1) % 2 == 0) && NoMarker(buf, start, i)
  }

  ghost predicate NoMarker(buf: seq<Byte>, start: nat, i: nat) {
    forall j | 0 <= j < i :: !Marker(buf, start, j)
  }

  lemma PastOtherWord(buf: seq<Byte>, start: nat, i: nat)
    requires Before(buf, start, i) && Nth(buf, start, i) != USER_CURRENT
    ensures Before(buf, start, i + 1)
  {
    hide Nth;
    assert Run(buf, start, i) == 0;
  }

  /** After a hint that is not followed by the empty extras, the word that follows is not looked at
      again: it cannot be a marker either, because it would end an even run. */
  lemma PastPair(buf: seq<Byte>, start: nat, i: nat)
    requires Before(buf, start, i) && Nth(buf, start, i) == USER_CURRENT && Nth(buf, start, i + 1) != EMPTY_EXTRAS
    ensures Before(buf, start, i + 2)
  {
    hide Nth;
    assert Run(buf, start, i) % 2 == 1;
    assert Run(buf, start, i + 1) % 2 == 0;
  }

  lemma AtMarker(buf: seq<Byte>, start: nat, i: nat)
    requires Before(buf, start, i) && Nth(buf, start, i) == USER_CURRENT && Nth(buf, start, i + 1) == EMPTY_EXTRAS
    requires i == 0 || start + 4 * i + 16 <= |buf|
    ensures FirstMarker(buf, start, i)
  {
    hide Nth;
  }

  lemma OneFirstMarker(buf: seq<Byte>, start: nat, i: nat, k: nat)
    requires FirstMarker(buf, start, i) && FirstMarker(buf, start, k)
    ensures i == k
  {
  }

  /** With fewer than sixteen bytes left, no later word can be recognised. */
  lemma NoMoreMarkers(buf: seq<Byte>, start: nat, i: nat, k: nat)
    requires Before(buf, start, i) && i > 0 && |buf| < start + 4 * i + 16
    ensures !Marker(buf, start, k)
  {
  }

  /** One round of the loop, from word `i`: it finds the marker there, or it moves on by `used` words. */
  method Round(reply: Parcel, ghost start: nat, ghost i: nat) returns (found: bool, ghost used: nat)
    requires reply.Valid() && reply.pos == start + 4 * i && Before(reply.data, start, i)
    requires i == 0 || reply.pos + 16 <= |reply.data|
    modifies reply`pos
    ensures reply.Valid() && 1 <= used <= 2 && old(reply.pos) <= reply.pos
    ensures if found then FirstMarker(reply.data, start, i) else Before(reply.data, start, i + used)
    ensures reply.pos == start + 4 * (i + used) || (!found && |reply.data| < start + 8)
    ensures found ==> used == 2
  {
    ghost var buf := reply.data;
    hide Before, FirstMarker, WordAt;
    var word := reply.ReadInt32();
    if word != USER_CURRENT {
      PastOtherWord(buf, start, i);
      return false, 1;
    }
    var next := reply.ReadInt32();
    if next == EMPTY_EXTRAS {
      AtMarker(buf, start, i);
      return true, 2;
    }
    PastPair(buf, start, i);
    return false, 2;
  }

  /** The do-while loop, left by the jump (`found`) or by its condition. It is left by the jump exactly
      when there is a marker, just past the first one. */
  method Scan(reply: Parcel) returns (found: bool)
    requires reply.Valid()
    modifies reply`pos
    ensures reply.Valid()
    ensures found <==> exists k: nat :: FirstMarker(reply.data, old(reply.pos), k)
    ensures forall k: nat | FirstMarker(reply.data, old(reply.pos), k) :: reply.pos == old(reply.pos) + 4 * (k + 2)
    ensures found ==> (reply.pos >= 8
      && WordAt(reply.data, reply.pos - 8) == USER_CURRENT && WordAt(reply.data, reply.pos - 4) == EMPTY_EXTRAS)
  {
    ghost var buf, start := reply.data, reply.pos;
    ghost var i: nat := 0;
    var more := true;
    while more
      invariant reply.Valid() && reply.data == buf && Before(buf, start, i)
      invariant more ==> reply.pos == start + 4 * i && (i == 0 || reply.pos + 16 <= |buf|)
      invariant !more ==> i > 0 && |buf| < start + 4 * i + 16
      decreases more, |buf| - reply.pos
    {
      ghost var used;
      found, used := Round(reply, start, i);
      if found {
        forall k: nat | FirstMarker(buf, start, k)
          ensures k == i
        {
          OneFirstMarker(buf, start, i, k);
        }
        return;
      }
      i := i + used;
      more := reply.DataAvail() >= 16;
    }
    forall k: nat
      ensures !FirstMarker(buf, start, k)
    {
      NoMoreMarkers(buf, start, i, k);
    }
    return false;
  }

  // ----- the whole function

  const HEADER := 36

  /** The status is OK, there is one entry, it is not null and it is running. Four words are skipped. */
  predicate HeaderAccepted(buf: seq<Byte>) {
    && WordAt(buf, 0) == 0
    && WordAt(buf, 4) == 1
    && WordAt(buf, 8) != 0
    && WordAt(buf, 28) != 0
  }

  /** The string at `pos` is the activity name of Kodi. */
  predicate Named(buf: seq<Byte>, pos: nat) {
    pos <= |buf| && ReadString(buf, pos).status == OK && ReadString(buf, pos).val == KODI
  }

  /** Where the Intent's words start, after the action. */
  function IntentStart(buf: seq<Byte>): (start: nat)
    requires HEADER <= |buf|
    ensures start <= |buf|
  {
    AfterString8(buf, HEADER)
  }

  /** What the function answers: without a base intent the name is looked for right away, with one after
      the first marker. */
  ghost predicate Topmost(buf: seq<Byte>) {
    && HEADER <= |buf|
    && HeaderAccepted(buf)
    && if WordAt(buf, 32) == 0 then Named(buf, HEADER) else NamedAfterMarker(buf, IntentStart(buf))
  }

  ghost predicate NamedAfterMarker(buf: seq<Byte>, start: nat) {
    exists k: nat :: FirstMarker(buf, start, k) && Named(buf, start + 4 * (k + 2))
  }

  method IsKodiTopmostApp(reply: Parcel) returns (topmost: bool)
    requires reply.pos == 0
    modifies reply`pos
    ensures topmost <==> Topmost(reply.data)
  {
    hide Named, FirstMarker, WordAt, AfterString8;
    var accepted := AcceptHeader(reply);
    if !accepted {
      return false;
    }
    var hasIntent := reply.ReadInt32();
    if hasIntent == 0 {
      if |reply.data| < HEADER {
        NoNameAtTheEnd(reply.data, 32);
      }
    } else {
      NonZeroWord(reply.data, 32);
      reply.SkipString8();
      ghost var start := reply.pos;
      var found := Scan(reply);
      if !found {
        return false;
      }
      ghost var k: nat :| FirstMarker(reply.data, start, k);
      OnlyNameAfter(reply.data, start, k);
    }
    topmost := CheckName(reply);
  }

  lemma NonZeroWord(buf: seq<Byte>, pos: nat)
    requires WordAt(buf, pos) != 0
    ensures pos + 4 <= |buf| && AfterWord(buf, pos) == pos + 4
  {
  }

  lemma NoNameAtTheEnd(buf: seq<Byte>, pos: nat)
    requires |buf| < pos + 4
    ensures !Named(buf, pos)
  {
  }

  lemma OnlyNameAfter(buf: seq<Byte>, start: nat, k: nat)
    requires FirstMarker(buf, start, k)
    ensures NamedAfterMarker(buf, start) <==> Named(buf, start + 4 * (k + 2))
  {
    hide Named;
    forall j: nat | FirstMarker(buf, start, j)
      ensures j == k
    {
      OneFirstMarker(buf, start, k, j);
    }
  }

  /** The checks before the base intent; the cursor may be set past the end, where every read fails. */
  method AcceptHeader(reply: Parcel) returns (accepted: bool)
    requires reply.pos == 0
    modifies reply`pos
    ensures accepted <==> HeaderAccepted(reply.data)
    ensures accepted ==> reply.pos == 32 <= |reply.data|
  {
    var status := reply.ReadInt32();
    if status != 0 {
      return false;
    }
    var length := reply.ReadInt32();
    if length != 1 {
      return false;
    }
    var nullcheck := reply.ReadInt32();
    if nullcheck == 0 {
      return false;
    }
    reply.SetDataPosition(reply.pos + 16);
    var isRunning := reply.ReadInt32();
    return isRunning != 0;
  }

  /** The length is compared first, and the string read only when it is right. */
  method CheckName(reply: Parcel) returns (named: bool)
    requires reply.Valid()
    modifies reply`pos
    ensures named <==> Named(reply.data, old(reply.pos))
  {
    var status, length := reply.ReadPrimitive(Int32);
    if status != OK || length != |KODI| {
      return false;
    }
    reply.SetDataPosition(reply.pos - 4);
    var name;
    status, name := reply.ReadUnits();
    return status == OK && name == KODI;
  }

  // ----- replies built word by word

  /** The words `ws`, one after the other. */
  function WordsOf(ws: seq<int>): (s: seq<Byte>)
    ensures |s| == 4 * |ws|
  {
    if ws == [] then [] else WordsOf(ws[..|ws| - 1]) + Int32Bytes(ws[|ws| - 1])
  }

  /** The Intent's action, which may be missing. */
  datatype Action = NoAction | ActionName(raw: seq<Byte>)

  /** A string of bytes is its length, the bytes, and zeros, at least one; -1 stands for none. */
  function ActionBytes(action: Action): (s: seq<Byte>) {
    match action
    case NoAction => Int32Bytes(-1)
    case ActionName(raw) => Int32Bytes(|raw|) + (raw + Zeros(Padded(|raw| + 1) - |raw|))
  }

  predicate IsAction(action: Action) {
    action.ActionName? ==> |action.raw| < INT32_MAX
  }

  /** A reply: nine words, the Intent's action, the words of the rest of the Intent, of which the last
      two are the user hint and the empty extras, the base activity's name, and whatever follows. */
  function Reply(head: seq<int>, action: Action, intent: seq<int>, name: seq<nat>, rest: seq<Byte>): (s: seq<Byte>) {
    WordsOf(head) + (ActionBytes(action) + (WordsOf(Marked(intent)) + (EncodeString(name).bytes + rest)))
  }

  /** Where the name stands in such a reply. */
  function NamePosition(action: Action, intent: seq<int>): (q: nat) {
    HEADER + |ActionBytes(action)| + 4 * (|intent| + 2)
  }

  function Marked(intent: seq<int>): (ws: seq<int>)
    ensures |ws| == |intent| + 2
  {
    intent + [-2, -1]
  }

  predicate AllInt32(ws: seq<int>) {
    forall w | w in ws :: InRange(Int32, w)
  }

  /** The reply's first nine words pass every check, with a running activity and a base intent. */
  predicate GoodHead(head: seq<int>) {
    |head| == 9 && AllInt32(head) && head[0] == 0 && head[1] == 1 && head[2] != 0 && head[7] != 0 && head[8] != 0
  }

  /** Nowhere in `ws` is the user hint followed by the empty extras. */
  predicate NoPair(ws: seq<int>) {
    forall i | 0 <= i < |ws| - 1 && ws[i] == USER_CURRENT :: ws[i + 1] != EMPTY_EXTRAS
  }

  /** Nor in the words of `buf` from position `q` on. */
  ghost predicate NoPairFrom(buf: seq<Byte>, q: nat) {
    forall m: nat :: WordAt(buf, q + 4 * m) == USER_CURRENT ==> WordAt(buf, q + 4 * m + 4) != EMPTY_EXTRAS
  }

  /** How many hints in a row end `ws`. */
  function Hints(ws: seq<int>): (n: nat) {
    if ws == [] || ws[|ws| - 1] != USER_CURRENT then 0 else 1 + Hints(ws[..|ws| - 1])
  }

  predicate CanBeReply(head: seq<int>, action: Action, intent: seq<int>, name: seq<nat>) {
    && GoodHead(head)
    && IsAction(action)
    && AllInt32(intent)
    && (forall u | u in name :: u < TWO_16)
    && EncodeString(name).status == OK
  }

  lemma {:induction false} WordBytesStand(ws: seq<int>, i: nat)
    requires i < |ws|
    ensures Piece(WordsOf(ws), 4 * i, 4) == Int32Bytes(ws[i])
  {
    hide Int32Bytes;
    var before, last := ws[..|ws| - 1], ws[|ws| - 1];
    if i < |ws| - 1 {
      WordBytesStand(before, i);
      PieceOfLeft(WordsOf(before), Int32Bytes(last), 4 * i, 4);
    } else {
      PieceOfRight(WordsOf(before), Int32Bytes(last));
    }
  }

  lemma WordBack(buf: seq<Byte>, pos: nat, w: int)
    requires InRange(Int32, w) && pos + 4 <= |buf| && Piece(buf, pos, 4) == Int32Bytes(w)
    ensures WordAt(buf, pos) == w
  {
    PrimRoundTrip(Int32, w);
  }

  lemma WordStands(ws: seq<int>, raw: seq<Byte>, buf: seq<Byte>, pos: nat, i: nat)
    requires i < |ws| && InRange(Int32, ws[i]) && raw == WordsOf(ws) && At(raw, buf, pos)
    ensures WordAt(buf, pos + 4 * i) == ws[i]
  {
    hide Int32Bytes, WordsOf, WordAt, InRange;
    AtPiece(raw, buf, pos, 4 * i, 4);
    WordBytesStand(ws, i);
    WordBack(buf, pos + 4 * i, ws[i]);
  }

  /** Where the parts of a reply stand. */
  lemma ReplyParts(head: seq<int>, action: Action, intent: seq<int>, name: seq<nat>, rest: seq<Byte>, buf: seq<Byte>)
    requires |head| == 9 && buf == Reply(head, action, intent, name, rest)
    ensures At(WordsOf(head), buf, 0)
    ensures At(ActionBytes(action), buf, HEADER)
    ensures var start := HEADER + |ActionBytes(action)|;
      At(WordsOf(Marked(intent)), buf, start) && At(EncodeString(name).bytes, buf, start + 4 * (|intent| + 2))
    ensures |buf| == HEADER + |ActionBytes(action)| + 4 * (|intent| + 2) + |EncodeString(name).bytes| + |rest|
  {
    hide WordsOf, ActionBytes, EncodeString, Marked;
    var c := EncodeString(name).bytes + rest;
    var b := WordsOf(Marked(intent)) + c;
    var a := ActionBytes(action) + b;
    assert At(buf, buf, 0);
    AtParts(WordsOf(head), a, buf, 0);
    AtParts(ActionBytes(action), b, buf, HEADER);
    var start := HEADER + |ActionBytes(action)|;
    AtParts(WordsOf(Marked(intent)), c, buf, start);
    AtParts(EncodeString(name).bytes, rest, buf, start + 4 * (|intent| + 2));
  }

  lemma HeadPasses(head: seq<int>, buf: seq<Byte>)
    requires GoodHead(head) && At(WordsOf(head), buf, 0)
    ensures HeaderAccepted(buf) && WordAt(buf, 32) != 0 && HEADER <= |buf|
  {
    hide WordsOf, WordAt, At;
    WordStands(head, WordsOf(head), buf, 0, 0);
    WordStands(head, WordsOf(head), buf, 0, 1);
    WordStands(head, WordsOf(head), buf, 0, 2);
    WordStands(head, WordsOf(head), buf, 0, 7);
    WordStands(head, WordsOf(head), buf, 0, 8);
    AtIsSlice(WordsOf(head), buf, 0);
  }

  lemma ActionPasses(action: Action, buf: seq<Byte>)
    requires IsAction(action) && At(ActionBytes(action), buf, HEADER)
    ensures HEADER <= |buf| && IntentStart(buf) == HEADER + |ActionBytes(action)|
  {
    match action
    case NoAction =>
      WordBack(buf, HEADER, -1);
    case ActionName(raw) =>
      var body := raw + Zeros(Padded(|raw| + 1) - |raw|);
      AtParts(Int32Bytes(|raw|), body, buf, HEADER);
      hide Int32Bytes, Zeros;
      WordBack(buf, HEADER, |raw|);
  }

  lemma IntentWords(intent: seq<int>, buf: seq<Byte>, start: nat)
    requires AllInt32(intent) && At(WordsOf(Marked(intent)), buf, start)
    ensures forall i | 0 <= i < |intent| + 2 :: Nth(buf, start, i) == Marked(intent)[i]
  {
    hide WordsOf, WordAt;
    forall i | 0 <= i < |intent| + 2
      ensures Nth(buf, start, i) == Marked(intent)[i]
    {
      WordStands(Marked(intent), WordsOf(Marked(intent)), buf, start, i);
    }
  }

  lemma {:induction false} RunOfHints(ws: seq<int>, buf: seq<Byte>, start: nat, n: nat)
    requires n < |ws| && forall i | 0 <= i < |ws| :: Nth(buf, start, i) == ws[i]
    ensures Run(buf, start, n) == Hints(ws[..n + 1])
  {
    hide Nth;
    assert ws[..n + 1][..n] == ws[..n];
    if n > 0 {
      RunOfHints(ws, buf, start, n - 1);
    }
  }

  lemma NoMarkerBefore(intent: seq<int>, buf: seq<Byte>, start: nat)
    requires NoPair(intent) && forall i | 0 <= i < |intent| + 2 :: Nth(buf, start, i) == Marked(intent)[i]
    ensures NoMarker(buf, start, |intent|)
  {
    hide Nth, Run;
    forall j | 0 <= j < |intent|
      ensures !Marker(buf, start, j)
    {
      assert Nth(buf, start, j) == intent[j];
      assert Nth(buf, start, j + 1) == Marked(intent)[j + 1];
    }
  }

  lemma HintsOfMarked(intent: seq<int>)
    ensures Hints(Marked(intent)[..|intent| + 1]) == 1 + Hints(intent)
  {
    assert Marked(intent)[..|intent| + 1] == intent + [USER_CURRENT];
    assert (intent + [USER_CURRENT])[..|intent|] == intent;
  }

  /** In an Intent without the pair, the marker at its end is the first, and is seen exactly when an even
      number of hints comes right before it. */
  lemma MarkerAtTheEnd(intent: seq<int>, buf: seq<Byte>, start: nat)
    requires NoPair(intent) && forall i | 0 <= i < |intent| + 2 :: Nth(buf, start, i) == Marked(intent)[i]
    requires start + 4 * |intent| + 16 <= |buf|
    ensures NoMarker(buf, start, |intent|)
    ensures Marker(buf, start, |intent|) <==> Hints(intent) % 2 == 0
  {
    hide Nth, NoMarker, Run, Hints;
    NoMarkerBefore(intent, buf, start);
    var n := |intent|;
    RunOfHints(Marked(intent), buf, start, n);
    HintsOfMarked(intent);
    assert Nth(buf, start, n) == Marked(intent)[n] && Nth(buf, start, n + 1) == Marked(intent)[n + 1];
  }

  lemma NameStands(name: seq<nat>, buf: seq<Byte>, pos: nat)
    requires (forall u | u in name :: u < TWO_16) && EncodeString(name).status == OK
    requires At(EncodeString(name).bytes, buf, pos)
    ensures Named(buf, pos) <==> name == KODI
    ensures pos + 8 <= |buf|
  {
    StringParts(name, buf, pos);
    hide EncodeString, ReadString, At;
    StringRoundTrip(name, buf, pos);
  }

  /** What the function meets in a reply, in the reply's own terms. */
  ghost predicate Meets(buf: seq<Byte>, start: nat, intent: seq<int>, name: seq<nat>) {
    && HEADER <= |buf| && HeaderAccepted(buf) && WordAt(buf, 32) != 0 && IntentStart(buf) == start
    && (forall i | 0 <= i < |intent| + 2 :: Nth(buf, start, i) == Marked(intent)[i])
    && (Named(buf, start + 4 * (|intent| + 2)) <==> name == KODI)
    && start + 4 * |intent| + 16 <= |buf|
  }

  lemma ReplyIsMet(head: seq<int>, action: Action, intent: seq<int>, name: seq<nat>, rest: seq<Byte>, buf: seq<Byte>)
    returns (start: nat)
    requires CanBeReply(head, action, intent, name) && buf == Reply(head, action, intent, name, rest)
    ensures Meets(buf, start, intent, name) && start + 4 * (|intent| + 2) == NamePosition(action, intent)
    ensures var q := NamePosition(action, intent);
      At(EncodeString(name).bytes, buf, q) && |buf| == q + |EncodeString(name).bytes| + |rest|
  {
    hide WordsOf, ActionBytes, EncodeString, At, Named, Nth, HeaderAccepted, WordAt, Reply, Marked, IntentStart;
    ReplyParts(head, action, intent, name, rest, buf);
    HeadPasses(head, buf);
    ActionPasses(action, buf);
    start := IntentStart(buf);
    hide GoodHead, AllInt32;
    IntentWords(intent, buf, start);
    NameStands(name, buf, start + 4 * (|intent| + 2));
  }

  lemma AnswerAtMarker(buf: seq<Byte>, start: nat, intent: seq<int>, name: seq<nat>)
    requires Meets(buf, start, intent, name) && FirstMarker(buf, start, |intent|)
    ensures Topmost(buf) <==> name == KODI
  {
    hide Named, FirstMarker, HeaderAccepted, WordAt, Nth, Marked;
    OnlyNameAfter(buf, start, |intent|);
  }

  lemma AnswerWithoutMarker(buf: seq<Byte>, start: nat, intent: seq<int>, name: seq<nat>)
    requires Meets(buf, start, intent, name) && forall k: nat :: !Marker(buf, start, k)
    ensures !Topmost(buf)
  {
    hide Named, HeaderAccepted, WordAt, Nth, Marked, Marker;
  }

  /** The heuristic is right on every reply whose Intent has no hint followed by the empty extras before
      its end and an even number of hints, none for instance, right before the last: whatever the other
      words, the action, the name and what follows, the answer is whether the name is Kodi's. */
  lemma RecognisesName(head: seq<int>, action: Action, intent: seq<int>, name: seq<nat>, rest: seq<Byte>)
    requires CanBeReply(head, action, intent, name) && NoPair(intent) && Hints(intent) % 2 == 0
    ensures Topmost(Reply(head, action, intent, name, rest)) <==> name == KODI
  {
    var buf := Reply(head, action, intent, name, rest);
    hide Reply, Topmost, Marker, EncodeString, At;
    var start := ReplyIsMet(head, action, intent, name, rest, buf);
    MarkerAtTheEnd(intent, buf, start);
    AnswerAtMarker(buf, start, intent, name);
  }

  lemma HighByteOfUnit(unit: seq<Byte>, u: nat)
    requires u < 256 && unit == Bytes(2, u)
    ensures unit[1] == 0
  {
    assert unit[1] == Bytes(1, u / 256)[0];
  }

  lemma HighByteOfLatin(units: seq<nat>, raw: seq<Byte>, unit: seq<Byte>, i: nat)
    requires i < |units| && units[i] < 256 && raw == UnitBytes(units, |units|) && unit == Bytes(2, units[i])
    ensures raw[2 * i + 1] == 0
  {
    HighByteOfUnit(unit, units[i]);
    UnitBytesAt(units, |units|, i);
    assert Piece(raw, 2 * i, 2)[1] == raw[2 * i + 1];
  }

  lemma HighByteZero(s: seq<Byte>)
    requires |s| == 4 && s[3] == 0
    ensures Narrowed(Int32, Number(s)) >= 0
  {
    var s1 := s[1..];
    var s2 := s1[1..];
    var s3 := s2[1..];
    assert s3 == [0] && s3[1..] == [];
    assert Number(s3) == 0 && Number(s2) == s2[0] && Number(s1) == s1[0] + 256 * Number(s2);
  }

  lemma OddByteOfRaw(name: seq<nat>, units: seq<nat>, raw: seq<Byte>, k: nat)
    requires (forall u | u in name :: u < 256) && units == name + [0] && raw == UnitBytes(units, |units|) && k < |units|
    ensures raw[2 * k + 1] == 0
  {
    assert k < |name| ==> units[k] in name;
    HighByteOfLatin(units, raw, Bytes(2, units[k]), k);
  }

  /** In the encoding of a name of one-byte characters, every second byte after the length is zero. */
  lemma OddBytesOfName(name: seq<nat>, k: nat)
    requires (forall u | u in name :: u < 256) && EncodeString(name).status == OK
    requires 5 + 2 * k < |EncodeString(name).bytes|
    ensures EncodeString(name).bytes[5 + 2 * k] == 0
  {
    var raw := UnitBytes(name + [0], |name| + 1);
    ByteOfParts(Int32Bytes(|name|), raw, Padding(|raw|), 5 + 2 * k);
    if k <= |name| {
      OddByteOfRaw(name, name + [0], raw, k);
    }
  }

  lemma ByteOfParts(a: seq<Byte>, b: seq<Byte>, c: seq<Byte>, i: nat)
    requires |a| <= i < |a| + |b| + |c|
    ensures (a + (b + c))[i] == if i < |a| + |b| then b[i - |a|] else c[i - |a| - |b|]
  {
  }

  lemma NameLength(name: seq<nat>, buf: seq<Byte>, pos: nat)
    requires EncodeString(name).status == OK && At(EncodeString(name).bytes, buf, pos)
    ensures WordAt(buf, pos) == |name|
  {
    StringParts(name, buf, pos);
    hide EncodeString, Int32Bytes, Number, Narrowed;
    WordBack(buf, pos, |name|);
  }

  lemma HighByteOfWord(bytes: seq<Byte>, buf: seq<Byte>, pos: nat, o: nat)
    requires At(bytes, buf, pos) && o + 4 <= |bytes| && bytes[o + 3] == 0
    ensures WordAt(buf, pos + o) >= 0
  {
    AtPiece(bytes, buf, pos, o, 4);
    hide Narrowed, Number;
    HighByteZero(Piece(bytes, o, 4));
  }

  lemma NoHintInName(name: seq<nat>, bytes: seq<Byte>, buf: seq<Byte>, pos: nat, m: nat)
    requires (forall u | u in name :: u < 256) && EncodeString(name).status == OK
    requires bytes == EncodeString(name).bytes && At(bytes, buf, pos) && |buf| == pos + |bytes|
    ensures WordAt(buf, pos + 4 * m) >= 0
  {
    hide EncodeString, WordAt, At;
    if m == 0 {
      NameLength(name, buf, pos);
    } else if 4 * m + 4 <= |bytes| {
      OddBytesOfName(name, 2 * m - 1);
      HighByteOfWord(bytes, buf, pos, 4 * m);
    } else {
      NoWordAtTheEnd(buf, pos + 4 * m);
    }
  }

  lemma NoWordAtTheEnd(buf: seq<Byte>, pos: nat)
    requires |buf| < pos + 4
    ensures WordAt(buf, pos) == 0
  {
  }

  /** In a reply that ends with a name of one-byte characters, no pair comes after the Intent. */
  lemma NoPairInName(head: seq<int>, action: Action, intent: seq<int>, name: seq<nat>)
    requires CanBeReply(head, action, intent, name) && forall u | u in name :: u < 256
    ensures NoPairFrom(Reply(head, action, intent, name, []), NamePosition(action, intent))
  {
    var buf, q := Reply(head, action, intent, name, []), NamePosition(action, intent);
    hide Reply, EncodeString, At, WordAt, NamePosition;
    var start := ReplyIsMet(head, action, intent, name, [], buf);
    forall m: nat
      ensures WordAt(buf, q + 4 * m) != USER_CURRENT
    {
      NoHintInName(name, EncodeString(name).bytes, buf, q, m);
    }
  }

  lemma NoMarkerLater(buf: seq<Byte>, start: nat, n: nat, k: nat)
    requires n <= k && NoPairFrom(buf, start + 4 * n)
    ensures !Marker(buf, start, k)
  {
    hide WordAt, Run;
    var m: nat := k - n;
    assert WordAt(buf, start + 4 * n + 4 * m) == Nth(buf, start, k);
    assert WordAt(buf, start + 4 * n + 4 * m + 4) == Nth(buf, start, k + 1);
  }

  /** With an odd number of hints right before the last, the scan steps over the marker; if no pair comes
      later either, it answers no, even for Kodi. */
  lemma OverlooksName(head: seq<int>, action: Action, intent: seq<int>, name: seq<nat>, rest: seq<Byte>)
    requires CanBeReply(head, action, intent, name) && NoPair(intent) && Hints(intent) % 2 == 1
    requires NoPairFrom(Reply(head, action, intent, name, rest), NamePosition(action, intent))
    ensures !Topmost(Reply(head, action, intent, name, rest))
  {
    var buf, n := Reply(head, action, intent, name, rest), |intent|;
    hide Reply, Topmost, EncodeString, At, WordAt, HeaderAccepted, Named, Nth, NamePosition, NoPairFrom;
    var start := ReplyIsMet(head, action, intent, name, rest, buf);
    MarkerAtTheEnd(intent, buf, start);
    assert Nth(buf, start, n + 1) == Marked(intent)[n + 1];
    forall k: nat
      ensures !Marker(buf, start, k)
    {
      if k >= n + 2 {
        NoMarkerLater(buf, start, n + 2, k);
      }
    }
    AnswerWithoutMarker(buf, start, intent, name);
  }

  /** On every reply in which the only hint followed by the empty extras is the one that ends the Intent,
      whatever the name and what follows it, the answer is yes exactly when the name is Kodi's and an even
      number of hints comes right before that one. */
  lemma WhenRecognised(head: seq<int>, action: Action, intent: seq<int>, name: seq<nat>, rest: seq<Byte>)
    requires CanBeReply(head, action, intent, name) && NoPair(intent)
    requires NoPairFrom(Reply(head, action, intent, name, rest), NamePosition(action, intent))
    ensures Topmost(Reply(head, action, intent, name, rest)) <==> Hints(intent) % 2 == 0 && name == KODI
  {
    hide Topmost, Reply, CanBeReply, NoPair, NoPairFrom, Hints;
    if Hints(intent) % 2 == 0 {
      RecognisesName(head, action, intent, name, rest);
    } else {
      OverlooksName(head, action, intent, name, rest);
    }
  }

  /** In particular on those that end with a name of one-byte characters. */
  lemma WhenLatinNameIsRecognised(head: seq<int>, action: Action, intent: seq<int>, name: seq<nat>)
    requires CanBeReply(head, action, intent, name) && NoPair(intent) && forall u | u in name :: u < 256
    ensures Topmost(Reply(head, action, intent, name, [])) <==> Hints(intent) % 2 == 0 && name == KODI
  {
    hide Topmost, Reply, CanBeReply, NoPair, NoPairFrom, Hints;
    NoPairInName(head, action, intent, name);
    WhenRecognised(head, action, intent, name, []);
  }

  /** Whatever follows the first nine words, a yes means that they report success, one task, an entry, and a
      task that is running. */
  lemma OnlyRunningTask(head: seq<int>, rest: seq<Byte>)
    requires |head| == 9 && AllInt32(head) && Topmost(WordsOf(head) + rest)
    ensures head[0] == 0 && head[1] == 1 && head[2] != 0 && head[7] != 0
  {
    HeadWords(head, WordsOf(head) + rest);
    hide WordsOf, WordAt, NamedAfterMarker, Named;
  }

  lemma HeadWords(head: seq<int>, buf: seq<Byte>)
    requires |head| == 9 && AllInt32(head) && WordsOf(head) <= buf
    ensures forall i | 0 <= i < 9 :: WordAt(buf, 4 * i) == head[i]
  {
    assert At(WordsOf(head), buf, 0);
    hide WordsOf, WordAt, At;
    forall i | 0 <= i < 9
      ensures WordAt(buf, 4 * i) == head[i]
    {
      WordStands(head, WordsOf(head), buf, 0, i);
    }
  }

  /** For a running task without a base intent the name follows at once, and the answer is whether it is Kodi's. */
  lemma WithoutIntent(head: seq<int>, name: seq<nat>, rest: seq<Byte>)
    requires |head| == 9 && AllInt32(head)
    requires head[0] == 0 && head[1] == 1 && head[2] != 0 && head[7] != 0 && head[8] == 0
    requires (forall u | u in name :: u < TWO_16) && EncodeString(name).status == OK
    ensures Topmost(WordsOf(head) + EncodeString(name).bytes + rest) <==> name == KODI
  {
    var buf := WordsOf(head) + EncodeString(name).bytes + rest;
    HeadWords(head, buf);
    hide EncodeString, WordsOf, WordAt, NamedAfterMarker, Named;
    assert At(EncodeString(name).bytes, buf, HEADER);
    NameStands(name, buf, HEADER);
  }

  /** The name as the source spells it. */
  lemma KodiSpelledOut()
    ensures |KODI| == 13 && forall i | 0 <= i < 13 :: KODI[i] as char == "org.xbmc.kodi"[i]
  {
  }

  /** The smallest such reply: one hint before the last hides Kodi from the scan; without it, it is seen. */
  lemma OneHintTooMany(action: Action)
    requires IsAction(action)
    ensures var head := [0, 1, 1, 0, 0, 0, 0, 1, 1];
      !Topmost(Reply(head, action, [USER_CURRENT], KODI, [])) && Topmost(Reply(head, action, [], KODI, []))
  {
    var head := [0, 1, 1, 0, 0, 0, 0, 1, 1];
    hide Topmost, Reply;
    assert [USER_CURRENT][..0] == [];
    WhenLatinNameIsRecognised(head, action, [USER_CURRENT], KODI);
    WhenLatinNameIsRecognised(head, action, [], KODI);
  }
}
