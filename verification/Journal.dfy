/** The journal as it runs: opening, appending groups of events in the fixed order log, anchor,
    index, stopping at any point in between, and losing power. A stopped process leaves what it wrote in
    place; a power loss can take back whatever was not synced. */
module Journals {
  import opened JournalLog
  import opened Orders
  import opened Outcomes

  /** Where an open stops early: at the sync of a new log's name, before or after the index is committed,
      or between the anchor's rename and the sync of its directory. */
  datatype OpenFault = Opened | BeforeNameSync | AfterCreate | BeforeCommit | BeforeNewAnchor | BeforeNewAnchorSync

  /** Where an append stops early. During the write any number of whole lines may reach the log, and
      possibly part of the next. */
  datatype AppendFault = Appended | DuringWrite(lines: nat, torn: bool) | BeforeSync | BeforeAnchor | BeforeAnchorSync | BeforeIndex

  /** What a power loss cannot take back: the first lines of the log, an anchor, and the log's name. */
  datatype Safe = Safe(lines: nat, anchor: Option<Marker>, log: bool)

  /** What a power loss leaves of the rest: how many lines and whether part of the next, and whether the
      anchor's last rename and the name of the log. */
  datatype Loss = Loss(lines: nat, torn: bool, anchor: bool, log: bool)

  datatype State = State(disk: Disk, safe: Safe, live: Option<Position>)

  const FRESH: State := State(Disk(None, None, map[]), Safe(0, None, false), None)

  // ---- What each operation does to the disk ----

  /** The log exists, and if it had to be created its name is synced. */
  function Created(s: State): State
  {
    s.(disk := s.disk.(log := Some(LogOf(s.disk))), safe := s.safe.(log := s.safe.log || s.disk.log.None?))
  }

  function OpenStep(s: State, fault: OpenFault, c: Codec): State
  {
    if s.live.Some? then s
    else if s.disk.log.Some? && s.disk.anchor.None? then s
    else if fault.BeforeNameSync? then s.(disk := Created(s).disk)
    else
      var t := Created(s);
      match Recover(s.disk, c)
      case None => t
      case Some(r) => if fault.AfterCreate? || fault.BeforeCommit? then t else Committed(t, r, fault)
  }

  /** The index is committed, the anchor renamed and its directory synced, as far as the open got. */
  function Committed(t: State, r: Scanned, fault: OpenFault): State
  {
    var indexed := t.(disk := t.disk.(index := r.index));
    var anchor := Some(Marker(r.at.sequence, r.at.digest));
    var renamed := indexed.(disk := indexed.disk.(anchor := anchor));
    match fault
    case BeforeNewAnchor => indexed
    case BeforeNewAnchorSync => renamed
    case _ => renamed.(safe := t.safe.(anchor := anchor), live := Some(r.at))
  }

  function TotalSize(p: Position, bodies: seq<Body>, c: Codec): nat
    decreases |bodies|
  {
    if bodies == [] then 0 else c.size(NextEvent(p, bodies[0])) + TotalSize(After(p, bodies[0], c), bodies[1..], c)
  }

  /** Between one and eight events that fit the bound together. */
  predicate Acceptable(p: Position, bodies: seq<Body>, c: Codec)
  {
    1 <= |bodies| <= MAX_BATCH && TotalSize(p, bodies, c) <= MAX_EVENT
  }

  function IndexLines(index: map<nat, Row>, lines: seq<Line>): Option<map<nat, Row>>
    decreases |lines|
  {
    if lines == [] then Some(index)
    else if lines[0].Torn? then None
    else
      match IndexEvent(index, lines[0].event, lines[0].digest)
      case None => None
      case Some(next) => IndexLines(next, lines[1..])
  }

  function Min(a: nat, b: nat): nat
  {
    if a <= b then a else b
  }

  function Max(a: nat, b: nat): nat
  {
    if a <= b then b else a
  }

  /** How many whole events of the group an attempt leaves in the log. */
  function Surviving(bodies: seq<Body>, fault: AppendFault): nat
  {
    match fault
    case DuringWrite(n, _) => Min(n, |bodies|)
    case _ => |bodies|
  }

  function WrittenLines(p: Position, bodies: seq<Body>, fault: AppendFault, c: Codec): seq<Line>
  {
    var lines := Lines(p, bodies, c);
    match fault
    case DuringWrite(n, torn) => if n < |bodies| then lines[..n] + (if torn then [Torn] else []) else lines
    case _ => lines
  }

  function AppendStep(s: State, bodies: seq<Body>, fault: AppendFault, c: Codec): State
  {
    if s.live.None? || !Acceptable(s.live.value, bodies, c) then s
    else
      var p := s.live.value;
      var end := End(p, bodies, c);
      var anchor := Some(Marker(end.sequence, end.digest));
      var log := LogOf(s.disk) + WrittenLines(p, bodies, fault, c);
      var written := State(s.disk.(log := Some(log)), s.safe, None);
      var synced := written.(safe := s.safe.(lines := |log|));
      var renamed := synced.(disk := synced.disk.(anchor := anchor));
      var anchored := renamed.(safe := renamed.safe.(anchor := anchor));
      match fault
      case DuringWrite(_, _) => written
      case BeforeSync => written
      case BeforeAnchor => synced
      case BeforeAnchorSync => renamed
      case BeforeIndex => anchored
      case Appended =>
        match IndexLines(s.disk.index, Lines(p, bodies, c))
        case None => anchored
        case Some(index) => anchored.(disk := anchored.disk.(index := index), live := Some(end))
  }

  /** How many lines of the log a power loss leaves. */
  function LinesLeft(s: State, loss: Loss): nat
  {
    Min(Max(loss.lines, s.safe.lines), |LogOf(s.disk)|)
  }

  function LossStep(s: State, loss: Loss): State
  {
    var log := LogOf(s.disk);
    var n := LinesLeft(s, loss);
    var left := log[..n] + (if loss.torn && n < |log| then [Torn] else []);
    var anchor := if loss.anchor then s.disk.anchor else s.safe.anchor;
    if s.disk.log.Some? && (s.safe.log || loss.log)
    then State(s.disk.(log := Some(left), anchor := anchor), Safe(|left|, anchor, true), None)
    else State(s.disk.(log := None, anchor := anchor), Safe(0, anchor, false), None)
  }

  // ---- Runs ----

  datatype Op = Open(openFault: OpenFault) | Append(bodies: seq<Body>, fault: AppendFault) | Close | PowerLoss(loss: Loss)

  function Step(s: State, op: Op, c: Codec): State
  {
    match op
    case Open(fault) => OpenStep(s, fault, c)
    case Append(bodies, fault) => AppendStep(s, bodies, fault, c)
    case Close => s.(live := None)
    case PowerLoss(loss) => LossStep(s, loss)
  }

  /** The state after any sequence of operations. */
  function Run(ops: Order<Op>, c: Codec): State
  {
    match ops
    case Start => FRESH
    case Then(before, op) => Step(Run(before, c), op, c)
  }

  /** The bodies of the whole lines in the log, and the longest list the log has held since the last
      append, which is what anchor and index may name. */
  datatype History = History(kept: seq<Body>, named: seq<Body>)

  function Follow(h: History, s: State, op: Op, c: Codec): History
  {
    match op
    case Append(bodies, fault) =>
      if s.live.None? || !Acceptable(s.live.value, bodies, c) then h
      else var kept := h.kept + bodies[..Surviving(bodies, fault)]; History(kept, kept)
    case PowerLoss(loss) => h.(kept := h.kept[..Min(LinesLeft(s, loss), |h.kept|)])
    case _ => h
  }

  /** A group adds its events, whole or as far as its write got; a power loss takes back the last ones,
      as far as they were not synced. */
  function Told(ops: Order<Op>, c: Codec): History
  {
    match ops
    case Start => History([], [])
    case Then(before, op) => Follow(Told(before, c), Run(before, c), op, c)
  }

  function Kept(ops: Order<Op>, c: Codec): seq<Body>
  {
    Told(ops, c).kept
  }

  /** The events of `kept` are what the log holds; a torn line can only be the last one, and only
      while no process is live. */
  ghost predicate LogHolds(s: State, kept: seq<Body>, c: Codec)
  {
    LogOf(s.disk) == Lines(START, kept, c) || (LogOf(s.disk) == Lines(START, kept, c) + [Torn] && s.live.None?)
  }

  /** Anchor, synced anchor and index name events the log holds or has held. */
  ghost predicate Names(s: State, named: seq<Body>, c: Codec)
  {
    && AnchoredIn(MarkerOf(s.disk), named, c)
    && (s.safe.anchor.Some? ==> AnchoredIn(s.safe.anchor.value, named, c))
    && (exists n: nat :: IndexPrefix(s.disk.index, Lines(START, named, c), n))
  }

  /** Without an anchor, synced or not, nothing was ever appended; without the log there is nothing at all. */
  ghost predicate Begins(s: State, named: seq<Body>)
  {
    && (s.disk.log.None? ==> s == FRESH)
    && (s.disk.anchor.None? || s.safe.anchor.None? || !s.safe.log ==>
          named == [] && s.disk.index == map[] && LogOf(s.disk) == [] && s.live.None?)
    && (s.disk.anchor.None? ==> s.safe.anchor.None?)
    && (!s.safe.log ==> s.disk.anchor.None?)
  }

  /** A live writer is at the end of the log, with anchor and index equal to it. */
  ghost predicate Meets(s: State, kept: seq<Body>, c: Codec)
  {
    s.live.Some? ==>
      && s.live.value == End(START, kept, c)
      && s.disk.anchor == s.safe.anchor == Some(Marker(s.live.value.sequence, s.live.value.digest))
      && IndexEquals(s.disk.index, Lines(START, kept, c))
  }

  ghost predicate Consistent(s: State, h: History, c: Codec)
  {
    && h.kept <= h.named && Fits(START, h.named, c)
    && LogHolds(s, h.kept, c) && s.safe.lines <= |LogOf(s.disk)|
    && Names(s, h.named, c) && Begins(s, h.named) && Meets(s, h.kept, c)
  }

  // ---- Opening ----

  lemma {:induction false} BodiesOfLines(p: Position, bodies: seq<Body>, c: Codec)
    ensures Bodies(Lines(p, bodies, c)) == bodies
    decreases |bodies|
  {
    if bodies != [] {
      BodiesOfLines(After(p, bodies[0], c), bodies[1..], c);
      assert Lines(p, bodies, c)[1..] == Lines(After(p, bodies[0], c), bodies[1..], c);
    }
  }

  /** No line is torn, an existing log has its anchor, and neither anchor nor index names more lines than
      the log has. */
  ghost predicate Openable(d: Disk)
  {
    && Torn !in LogOf(d) && (d.log.Some? ==> d.anchor.Some?)
    && MarkerOf(d).number <= |LogOf(d)| && (forall k :: k in d.index ==> k <= |LogOf(d)|)
  }

  lemma AnchoredCut(marker: Marker, named: seq<Body>, kept: seq<Body>, c: Codec)
    requires kept <= named && AnchoredIn(marker, named, c) && marker.number <= |kept|
    ensures AnchoredIn(marker, kept, c)
  {
    assert kept[..marker.number] == named[..marker.number];
  }

  lemma LinesCut(named: seq<Body>, kept: seq<Body>, c: Codec)
    requires kept <= named
    ensures Lines(START, kept, c) == Lines(START, named, c)[..|kept|]
    ensures Fits(START, named, c) ==> Fits(START, kept, c)
  {
    assert named == kept + named[|kept|..];
    LinesAppend(START, kept, named[|kept|..], c);
  }

  lemma IndexCut(index: map<nat, Row>, lines: seq<Line>, m: nat, n: nat)
    requires m <= |lines| && IndexPrefix(index, lines, n) && forall k :: k in index ==> k <= m
    ensures IndexPrefix(index, lines[..m], n)
  {
    assert n > 0 ==> n in index;
    assert lines[..m][..n] == lines[..n];
  }

  /** Whatever was on disk, an accepted open read an openable one. */
  lemma OpenOnly(d: Disk, c: Codec)
    requires Recover(d, c).Some?
    ensures Openable(d)
  {
    RecoverSound(d, c);
    LinesWhole(START, Bodies(LogOf(d)), c);
    ScanIndexes(LogOf(d), Scanned(START, MarkerOf(d) == Marker(0, ZERO), d.index), MarkerOf(d), c);
  }

  /** On a consistent disk opening succeeds exactly when the disk is openable; it then recovers exactly
      what the log holds. */
  lemma OpenIff(s: State, h: History, c: Codec)
    requires Injective(c.hash) && Consistent(s, h, c)
    ensures Recover(s.disk, c).Some? <==> Openable(s.disk)
    ensures Recover(s.disk, c).Some? ==>
              && LogOf(s.disk) == Lines(START, h.kept, c)
              && Recover(s.disk, c).value.at == End(START, h.kept, c)
              && IndexEquals(Recover(s.disk, c).value.index, Lines(START, h.kept, c))
  {
    if Openable(s.disk) {
      OpensWhole(s, h, c);
    } else if Recover(s.disk, c).Some? {
      OpenOnly(s.disk, c);
    }
  }

  lemma OpensWhole(s: State, h: History, c: Codec)
    requires Injective(c.hash) && Consistent(s, h, c) && Openable(s.disk)
    ensures LogOf(s.disk) == Lines(START, h.kept, c) && Recover(s.disk, c).Some?
    ensures Recover(s.disk, c).value.at == End(START, h.kept, c)
    ensures IndexEquals(Recover(s.disk, c).value.index, Lines(START, h.kept, c))
  {
    var lines := Lines(START, h.kept, c);
    assert (lines + [Torn])[|lines|] == Torn;
    var n: nat :| IndexPrefix(s.disk.index, Lines(START, h.named, c), n);
    AnchoredCut(MarkerOf(s.disk), h.named, h.kept, c);
    LinesCut(h.named, h.kept, c);
    IndexCut(s.disk.index, Lines(START, h.named, c), |h.kept|, n);
    RecoverComplete(s.disk, h.kept, n, c);
    RecoverSound(s.disk, c);
    BodiesOfLines(START, h.kept, c);
  }

  lemma WholeAnchored(kept: seq<Body>, c: Codec)
    ensures var end := End(START, kept, c); AnchoredIn(Marker(end.sequence, end.digest), kept, c)
  {
    LinesWhole(START, kept, c);
    assert kept[..|kept|] == kept;
  }

  lemma WholePrefix(index: map<nat, Row>, lines: seq<Line>)
    requires IndexEquals(index, lines)
    ensures IndexPrefix(index, lines, |lines|)
  {
    assert lines[..|lines|] == lines;
  }

  lemma EmptyIndexPrefix(lines: seq<Line>)
    ensures IndexPrefix(map[], lines, 0)
  {
  }

  /** Opening, stopped anywhere, keeps disk and history consistent. */
  lemma OpenKeeps(s: State, h: History, fault: OpenFault, c: Codec)
    requires Injective(c.hash) && Consistent(s, h, c)
    ensures Consistent(OpenStep(s, fault, c), h, c)
  {
    if s.live.None? && (s.disk.log.Some? ==> s.disk.anchor.Some?) {
      CreatedKeeps(s, h, c);
      if Recover(s.disk, c).Some? { OpenedKeeps(s, h, fault, c); }
    }
  }

  lemma OpenedKeeps(s: State, h: History, fault: OpenFault, c: Codec)
    requires Injective(c.hash) && Consistent(s, h, c) && s.live.None? && Recover(s.disk, c).Some?
    ensures Consistent(Committed(Created(s), Recover(s.disk, c).value, fault), h, c)
  {
    CreatedKeeps(s, h, c);
    OpenNames(s, h, c);
    OpenIff(s, h, c);
    RecoveredKeeps(Created(s), h, Recover(s.disk, c).value, fault, c);
  }

  lemma CreatedKeeps(s: State, h: History, c: Codec)
    requires Consistent(s, h, c) && s.live.None? && (s.disk.log.Some? ==> s.disk.anchor.Some?)
    ensures Consistent(Created(s), h, c) && Consistent(s.(disk := Created(s).disk), h, c)
  {
  }

  /** Committing the index, renaming the anchor and syncing it each keep disk and history consistent. */
  lemma RecoveredKeeps(t: State, h: History, r: Scanned, fault: OpenFault, c: Codec)
    requires Consistent(t, h, c) && t.live.None? && t.disk.log.Some? && t.safe.log
    requires LogOf(t.disk) == Lines(START, h.kept, c) && r.at == End(START, h.kept, c)
    requires IndexEquals(r.index, Lines(START, h.kept, c)) && IndexPrefix(r.index, Lines(START, h.named, c), |h.kept|)
    requires AnchoredIn(Marker(r.at.sequence, r.at.digest), h.named, c) && (h.kept == [] ==> r.index == map[])
    ensures Consistent(Committed(t, r, fault), h, c)
  {
  }

  /** The index and the anchor a successful open writes name the log as it is. */
  lemma OpenNames(s: State, h: History, c: Codec)
    requires Injective(c.hash) && Consistent(s, h, c) && Recover(s.disk, c).Some?
    ensures var r := Recover(s.disk, c).value;
            && AnchoredIn(Marker(r.at.sequence, r.at.digest), h.named, c)
            && IndexPrefix(r.index, Lines(START, h.named, c), |h.kept|)
            && (h.kept == [] ==> r.index == map[])
  {
    OpenIff(s, h, c);
    EndAnchored(h.kept, h.named, c);
    LinesCut(h.named, h.kept, c);
  }

  lemma EndAnchored(kept: seq<Body>, named: seq<Body>, c: Codec)
    requires kept <= named
    ensures var end := End(START, kept, c); AnchoredIn(Marker(end.sequence, end.digest), named, c)
  {
    WholeAnchored(kept, c);
    AnchoredExtends(Marker(End(START, kept, c).sequence, End(START, kept, c).digest), kept, named[|kept|..], c);
    assert kept + named[|kept|..] == named;
  }

  // ---- Appending ----

  lemma {:induction false} AcceptableFits(p: Position, bodies: seq<Body>, c: Codec)
    requires TotalSize(p, bodies, c) <= MAX_EVENT
    ensures Fits(p, bodies, c)
    decreases |bodies|
  {
    if bodies != [] { AcceptableFits(After(p, bodies[0], c), bodies[1..], c); }
  }

  /** Any first part of a group extends the log to the text of the longer list. */
  lemma AppendLog(kept: seq<Body>, bodies: seq<Body>, n: nat, c: Codec)
    requires n <= |bodies| && Fits(START, kept, c) && Fits(End(START, kept, c), bodies, c)
    ensures Fits(START, kept + bodies[..n], c)
    ensures Lines(START, kept + bodies[..n], c) == Lines(START, kept, c) + Lines(End(START, kept, c), bodies, c)[..n]
    ensures End(START, kept + bodies[..n], c) == End(End(START, kept, c), bodies[..n], c)
  {
    var p := End(START, kept, c);
    assert bodies == bodies[..n] + bodies[n..];
    LinesAppend(p, bodies[..n], bodies[n..], c);
    LinesAppend(START, kept, bodies[..n], c);
  }

  lemma {:induction false} AnchoredExtends(marker: Marker, kept: seq<Body>, more: seq<Body>, c: Codec)
    requires AnchoredIn(marker, kept, c)
    ensures AnchoredIn(marker, kept + more, c)
  {
    if marker.number <= |kept| {
      assert (kept + more)[..marker.number] == kept[..marker.number];
    }
  }

  lemma PrefixExtends(index: map<nat, Row>, lines: seq<Line>, more: seq<Line>)
    requires exists n: nat :: IndexPrefix(index, lines, n)
    ensures exists n: nat :: IndexPrefix(index, lines + more, n)
  {
    var n: nat :| IndexPrefix(index, lines, n);
    assert (lines + more)[..n] == lines[..n];
    assert IndexPrefix(index, lines + more, n);
  }

  lemma IndexOne(index: map<nat, Row>, lines: seq<Line>, body: Body, p: Position, c: Codec)
    requires Injective(c.hash) && Authentic(index, c) && IndexEquals(index, lines) && p.sequence == |lines|
    ensures var e := NextEvent(p, body);
            var r := IndexEvent(index, e, c.hash(e));
            r.Some? && Authentic(r.value, c) && IndexEquals(r.value, lines + [Whole(e, c.hash(e))])
  {
    IndexAccepts(index, NextEvent(p, body), c);
  }

  /** Indexing a group after its anchor always succeeds and keeps the index equal to the log. */
  lemma {:induction false} IndexGroup(index: map<nat, Row>, lines: seq<Line>, bodies: seq<Body>, p: Position, c: Codec)
    requires Injective(c.hash) && Authentic(index, c) && IndexEquals(index, lines) && p.sequence == |lines|
    ensures var r := IndexLines(index, Lines(p, bodies, c));
            r.Some? && IndexEquals(r.value, lines + Lines(p, bodies, c))
    decreases |bodies|
  {
    if bodies == [] {
      assert lines + Lines(p, bodies, c) == lines;
    } else {
      var e := NextEvent(p, bodies[0]);
      var first := Whole(e, c.hash(e));
      IndexOne(index, lines, bodies[0], p, c);
      var next := IndexEvent(index, e, c.hash(e)).value;
      IndexGroup(next, lines + [first], bodies[1..], After(p, bodies[0], c), c);
      GroupSplit(index, lines, bodies, p, c);
    }
  }

  lemma GroupSplit(index: map<nat, Row>, lines: seq<Line>, bodies: seq<Body>, p: Position, c: Codec)
    requires bodies != []
    ensures var e := NextEvent(p, bodies[0]);
            var first, rest := Whole(e, c.hash(e)), Lines(After(p, bodies[0], c), bodies[1..], c);
            && lines + Lines(p, bodies, c) == lines + [first] + rest
            && (IndexEvent(index, e, c.hash(e)).Some? ==>
                  IndexLines(index, Lines(p, bodies, c)) == IndexLines(IndexEvent(index, e, c.hash(e)).value, rest))
  {
    var e := NextEvent(p, bodies[0]);
    var rest := Lines(After(p, bodies[0], c), bodies[1..], c);
    assert Lines(p, bodies, c) == [Whole(e, c.hash(e))] + rest;
    assert Lines(p, bodies, c)[1..] == rest;
  }

  lemma LiveAuthentic(index: map<nat, Row>, kept: seq<Body>, c: Codec)
    requires IndexEquals(index, Lines(START, kept, c))
    ensures Authentic(index, c)
  {
    LinesAuthentic(START, kept, c);
  }

  /** An append, stopped anywhere, keeps disk and history consistent. */
  lemma AppendKeeps(s: State, h: History, bodies: seq<Body>, fault: AppendFault, c: Codec)
    requires Injective(c.hash) && Consistent(s, h, c)
    ensures Consistent(AppendStep(s, bodies, fault, c), Follow(h, s, Append(bodies, fault), c), c)
  {
    if s.live.Some? && Acceptable(s.live.value, bodies, c) {
      if fault.DuringWrite? {
        AppendTorn(s, h, bodies, fault, c);
      } else {
        AppendWhole(s, h, bodies, fault, c);
      }
    }
  }

  /** Anchors and index stay within the longer log. */
  lemma NamesExtend(s: State, h: History, bodies: seq<Body>, n: nat, c: Codec)
    requires Consistent(s, h, c) && s.live.Some? && Acceptable(s.live.value, bodies, c) && n <= |bodies|
    ensures var kept := h.kept + bodies[..n];
            && Fits(START, kept, c)
            && Lines(START, kept, c) == Lines(START, h.kept, c) + Lines(s.live.value, bodies, c)[..n]
            && End(START, kept, c) == End(s.live.value, bodies[..n], c)
            && Names(s, kept, c)
  {
    var lines := Lines(START, h.kept, c);
    AcceptableFits(s.live.value, bodies, c);
    LinesCut(h.named, h.kept, c);
    AppendLog(h.kept, bodies, n, c);
    WholeAnchored(h.kept, c);
    AnchoredExtends(MarkerOf(s.disk), h.kept, bodies[..n], c);
    WholePrefix(s.disk.index, lines);
    PrefixExtends(s.disk.index, lines, Lines(s.live.value, bodies, c)[..n]);
  }

  lemma AppendTorn(s: State, h: History, bodies: seq<Body>, fault: AppendFault, c: Codec)
    requires Consistent(s, h, c) && s.live.Some? && Acceptable(s.live.value, bodies, c) && fault.DuringWrite?
    ensures Consistent(AppendStep(s, bodies, fault, c), Follow(h, s, Append(bodies, fault), c), c)
  {
    var n := Surviving(bodies, fault);
    var lines, group := Lines(START, h.kept, c), Lines(s.live.value, bodies, c);
    NamesExtend(s, h, bodies, n, c);
    assert group[..|bodies|] == group;
    assert lines + (group[..n] + [Torn]) == lines + group[..n] + [Torn];
    assert lines + (group[..n] + []) == lines + group[..n];
  }

  lemma AppendWhole(s: State, h: History, bodies: seq<Body>, fault: AppendFault, c: Codec)
    requires Injective(c.hash) && Consistent(s, h, c)
    requires s.live.Some? && Acceptable(s.live.value, bodies, c) && !fault.DuringWrite?
    ensures Consistent(AppendStep(s, bodies, fault, c), Follow(h, s, Append(bodies, fault), c), c)
    ensures bodies[..Surviving(bodies, fault)] == bodies
    ensures fault.Appended? ==>
              var t := AppendStep(s, bodies, fault, c);
              t.live == Some(End(s.live.value, bodies, c)) && t.safe.lines == |LogOf(t.disk)|
  {
    var p, kept := s.live.value, h.kept + bodies;
    var lines, group := Lines(START, h.kept, c), Lines(p, bodies, c);
    NamesExtend(s, h, bodies, |bodies|, c);
    assert bodies[..|bodies|] == bodies && group[..|bodies|] == group;
    GroupIndexed(s, h, bodies, c);
    WholeAnchored(kept, c);
    WrittenKeeps(s, kept, lines + group, End(p, bodies, c), IndexLines(s.disk.index, group).value, c);
  }

  lemma GroupIndexed(s: State, h: History, bodies: seq<Body>, c: Codec)
    requires Injective(c.hash) && Consistent(s, h, c) && s.live.Some?
    ensures var r := IndexLines(s.disk.index, Lines(s.live.value, bodies, c));
            r.Some? && IndexEquals(r.value, Lines(START, h.kept, c) + Lines(s.live.value, bodies, c))
  {
    LinesWhole(START, h.kept, c);
    LiveAuthentic(s.disk.index, h.kept, c);
    IndexGroup(s.disk.index, Lines(START, h.kept, c), bodies, s.live.value, c);
  }

  /** Writing the log, syncing it, renaming the anchor, syncing it and committing the index each keep disk
      and history consistent. */
  lemma WrittenKeeps(s: State, kept: seq<Body>, log: seq<Line>, end: Position, index: map<nat, Row>, c: Codec)
    requires log == Lines(START, kept, c) && end == End(START, kept, c) && Fits(START, kept, c) && Names(s, kept, c)
    requires s.safe.lines <= |log| && s.safe.log && s.disk.anchor.Some? && s.safe.anchor.Some?
    requires AnchoredIn(Marker(end.sequence, end.digest), kept, c) && IndexEquals(index, log)
    ensures var anchor, h := Some(Marker(end.sequence, end.digest)), History(kept, kept);
            var written := State(s.disk.(log := Some(log)), s.safe, None);
            var synced := written.(safe := s.safe.(lines := |log|));
            var renamed := synced.(disk := synced.disk.(anchor := anchor));
            var anchored := renamed.(safe := renamed.safe.(anchor := anchor));
            && Consistent(written, h, c) && Consistent(synced, h, c) && Consistent(renamed, h, c) && Consistent(anchored, h, c)
            && Consistent(anchored.(disk := anchored.disk.(index := index), live := Some(end)), h, c)
  {
    WholePrefix(index, log);
  }

  // ---- Losing power ----

  /** A power loss keeps disk and history consistent. */
  lemma LossKeeps(s: State, h: History, loss: Loss, c: Codec)
    requires Consistent(s, h, c)
    ensures Consistent(LossStep(s, loss), Follow(h, s, PowerLoss(loss), c), c)
  {
    LossLog(s, h, loss, c);
  }

  /** What is left of the log is the text of what is left of the history, possibly torn. */
  lemma LossLog(s: State, h: History, loss: Loss, c: Codec)
    requires LogHolds(s, h.kept, c)
    ensures var n := LinesLeft(s, loss);
            var kept := h.kept[..Min(n, |h.kept|)];
            var left := LogOf(s.disk)[..n];
            && (left == Lines(START, kept, c) || left == Lines(START, kept, c) + [Torn])
            && (n < |LogOf(s.disk)| ==> left == Lines(START, kept, c))
  {
    var lines, n := Lines(START, h.kept, c), LinesLeft(s, loss);
    LinesCut(h.kept, h.kept[..Min(n, |h.kept|)], c);
    assert n <= |lines| ==> LogOf(s.disk)[..n] == lines[..n];
    assert n == |LogOf(s.disk)| ==> LogOf(s.disk)[..n] == LogOf(s.disk);
  }

  /** Only synced lines are named, and the anchor is synced. */
  ghost predicate Sheltered(s: State)
  {
    && (s.disk.log.Some? ==> s.safe.anchor.Some?)
    && MarkerOf(s.disk).number <= s.safe.lines && (forall k :: k in s.disk.index ==> k <= s.safe.lines)
    && (s.safe.anchor.Some? ==> s.safe.anchor.value.number <= s.safe.lines)
  }

  /** A journal that opens still opens after every power loss that tears no line, exactly when its anchor is
      synced and anchor and index name synced lines only. */
  lemma LossShelteredIff(s: State, h: History, c: Codec)
    requires Injective(c.hash) && Consistent(s, h, c) && Openable(s.disk)
    ensures (forall loss: Loss :: !loss.torn ==> Recover(LossStep(s, loss).disk, c).Some?) <==> Sheltered(s)
  {
    forall loss: Loss ensures Recover(LossStep(s, loss).disk, c).Some? <==> Openable(LossStep(s, loss).disk) {
      LossKeeps(s, h, loss, c);
      OpenIff(LossStep(s, loss), Follow(h, s, PowerLoss(loss), c), c);
    }
    if Sheltered(s) {
      forall loss: Loss | !loss.torn ensures Openable(LossStep(s, loss).disk) {
      }
    } else {
      var worst, lucky := Loss(0, false, false, true), Loss(0, false, true, true);
      assert !Openable(LossStep(s, worst).disk) || !Openable(LossStep(s, lucky).disk);
    }
  }

  /** Opening makes a journal vulnerable exactly when it anchors lines that were never synced. */
  lemma OpenSheltersIff(s: State, h: History, c: Codec)
    requires Injective(c.hash) && Consistent(s, h, c) && s.live.None? && Openable(s.disk)
    ensures Sheltered(OpenStep(s, Opened, c)) <==> s.safe.lines == |LogOf(s.disk)|
  {
    OpenIff(s, h, c);
    LinesWhole(START, h.kept, c);
  }

  // ---- Every run ----

  /** Across any sequence of opens, appends, closes and power losses, each stopping anywhere, the log is
      exactly the history, and anchor and index name only what it holds or has held. */
  lemma {:induction false} RunConsistent(ops: Order<Op>, c: Codec)
    requires Injective(c.hash)
    ensures Consistent(Run(ops, c), Told(ops, c), c)
  {
    match ops
    case Start => EmptyIndexPrefix([]);
    case Then(before, op) =>
      RunConsistent(before, c);
      StepConsistent(Run(before, c), Told(before, c), op, c);
  }

  lemma StepConsistent(s: State, h: History, op: Op, c: Codec)
    requires Injective(c.hash) && Consistent(s, h, c)
    ensures Consistent(Step(s, op, c), Follow(h, s, op, c), c)
  {
    match op
    case Open(fault) => OpenKeeps(s, h, fault, c);
    case Append(bodies, fault) => AppendKeeps(s, h, bodies, fault, c);
    case Close =>
    case PowerLoss(loss) => LossKeeps(s, h, loss, c);
  }

  /** After any run an open either refuses or recovers exactly what the log holds, in order, with the index
      equal to the log. It refuses exactly when the last line is torn, the log has no anchor, or the anchor
      or the index names more lines than the log has. */
  lemma RunRecovers(ops: Order<Op>, c: Codec)
    requires Injective(c.hash)
    ensures var d := Run(ops, c).disk;
            var kept := Kept(ops, c);
            && (Recover(d, c).Some? <==> Openable(d))
            && (Recover(d, c).Some? ==>
                  && LogOf(d) == Lines(START, kept, c)
                  && Recover(d, c).value.at == End(START, kept, c)
                  && IndexEquals(Recover(d, c).value.index, LogOf(d)))
  {
    RunConsistent(ops, c);
    OpenIff(Run(ops, c), Told(ops, c), c);
  }

  /** What is synced stays synced. */
  lemma StepShelters(s: State, h: History, op: Op, n: nat, c: Codec)
    requires Injective(c.hash) && Consistent(s, h, c) && n <= s.safe.lines && n <= |h.kept|
    ensures n <= Step(s, op, c).safe.lines && h.kept[..n] <= Follow(h, s, op, c).kept
  {
    match op
    case Open(fault) => OpenSafe(s, fault, c);
    case Append(bodies, fault) => AppendSafe(s, bodies, fault, c);
    case Close =>
    case PowerLoss(loss) => LossSafe(s, h, loss, n, c);
  }

  lemma OpenSafe(s: State, fault: OpenFault, c: Codec)
    ensures OpenStep(s, fault, c).safe.lines == s.safe.lines
  {
  }

  lemma AppendSafe(s: State, bodies: seq<Body>, fault: AppendFault, c: Codec)
    requires s.safe.lines <= |LogOf(s.disk)|
    ensures s.safe.lines <= AppendStep(s, bodies, fault, c).safe.lines
  {
  }

  lemma LossSafe(s: State, h: History, loss: Loss, n: nat, c: Codec)
    requires Consistent(s, h, c) && n <= s.safe.lines && n <= |h.kept|
    ensures n <= LossStep(s, loss).safe.lines && n <= LinesLeft(s, loss)
  {
  }

  /** Synced events stay in the log, however the run continues. */
  lemma {:induction false} SyncedStays(run: Order<Op>, earlier: Order<Op>, n: nat, c: Codec)
    requires Injective(c.hash) && Extends(run, earlier) && n <= Run(earlier, c).safe.lines && n <= |Kept(earlier, c)|
    ensures n <= Run(run, c).safe.lines && Kept(earlier, c)[..n] <= Kept(run, c)
    decreases run
  {
    if run != earlier {
      SyncedStays(run.before, earlier, n, c);
      RunConsistent(run.before, c);
      StepShelters(Run(run.before, c), Told(run.before, c), run.key, n, c);
      assert Kept(run.before, c)[..n] == Kept(earlier, c)[..n];
    }
  }

  /** An append without a fault, on a live journal and within the bounds, commits its whole group, and
      everything in the log is then synced. */
  lemma AppendAcknowledges(ops: Order<Op>, bodies: seq<Body>, c: Codec)
    requires Injective(c.hash) && Run(ops, c).live.Some? && Acceptable(Run(ops, c).live.value, bodies, c)
    ensures var next := Then(ops, Append(bodies, Appended));
            && Kept(next, c) == Kept(ops, c) + bodies && Run(next, c).live.Some?
            && Run(next, c).safe.lines == |Kept(next, c)| && Sheltered(Run(next, c))
  {
    RunConsistent(ops, c);
    AppendWhole(Run(ops, c), Told(ops, c), bodies, Appended, c);
    LinesWhole(START, Kept(Then(ops, Append(bodies, Appended)), c), c);
  }

  /** An append that was acknowledged is never lost: however the run continues, through stops and power
      losses, its events and all before them stay in place in the log, and every open that succeeds
      recovers them. */
  lemma AcknowledgedStays(ops: Order<Op>, bodies: seq<Body>, run: Order<Op>, c: Codec)
    requires Injective(c.hash) && Run(ops, c).live.Some? && Acceptable(Run(ops, c).live.value, bodies, c)
    requires Extends(run, Then(ops, Append(bodies, Appended)))
    ensures Lines(START, Kept(ops, c) + bodies, c) <= LogOf(Run(run, c).disk)
    ensures Recover(Run(run, c).disk, c).Some? ==> Kept(ops, c) + bodies <= Bodies(LogOf(Run(run, c).disk))
  {
    var next := Then(ops, Append(bodies, Appended));
    AppendAcknowledges(ops, bodies, c);
    SyncedStays(run, next, |Kept(next, c)|, c);
    assert Kept(next, c)[..|Kept(next, c)|] == Kept(next, c);
    KeptInLog(run, Kept(next, c), c);
  }

  /** What the history starts with is what the log, and everything recovered from it, starts with. */
  lemma KeptInLog(run: Order<Op>, first: seq<Body>, c: Codec)
    requires Injective(c.hash) && first <= Kept(run, c)
    ensures Lines(START, first, c) <= LogOf(Run(run, c).disk)
    ensures Recover(Run(run, c).disk, c).Some? ==> first <= Bodies(LogOf(Run(run, c).disk))
  {
    RunConsistent(run, c);
    LinesCut(Kept(run, c), first, c);
    if Recover(Run(run, c).disk, c).Some? {
      RunRecovers(run, c);
      BodiesOfLines(START, Kept(run, c), c);
    }
  }

  // ---- When anchor and index name unsynced lines ----

  /** The anchor, the synced anchor and the index name synced lines only. */
  ghost predicate NamesSynced(s: State)
  {
    && MarkerOf(s.disk).number <= s.safe.lines && (s.safe.anchor.Some? ==> s.safe.anchor.value.number <= s.safe.lines)
    && (forall k :: k in s.disk.index ==> k <= s.safe.lines)
  }

  /** The operation is an open that reaches its index commit over lines that were never synced. */
  ghost predicate Exposes(s: State, op: Op, c: Codec)
  {
    && op.Open? && s.live.None? && Recover(s.disk, c).Some? && s.safe.lines < |LogOf(s.disk)|
    && (op.openFault.BeforeNewAnchor? || op.openFault.BeforeNewAnchorSync? || op.openFault.Opened?)
  }

  lemma OpenSyncedIff(s: State, h: History, fault: OpenFault, c: Codec)
    requires Injective(c.hash) && Consistent(s, h, c) && NamesSynced(s)
    ensures NamesSynced(OpenStep(s, fault, c)) <==> !Exposes(s, Open(fault), c)
  {
    OpenIff(s, h, c);
    LinesWhole(START, h.kept, c);
    if Recover(s.disk, c).Some? { CommittedSyncedIff(Created(s), Recover(s.disk, c).value, fault); }
  }

  lemma CommittedSyncedIff(t: State, r: Scanned, fault: OpenFault)
    requires NamesSynced(t) && IndexEquals(r.index, LogOf(t.disk)) && r.at.sequence == |LogOf(t.disk)|
    ensures NamesSynced(Committed(t, r, fault)) <==> |LogOf(t.disk)| <= t.safe.lines
  {
    assert |LogOf(t.disk)| > 0 ==> |LogOf(t.disk)| in r.index;
  }

  lemma AppendSynced(s: State, h: History, bodies: seq<Body>, fault: AppendFault, c: Codec)
    requires Injective(c.hash) && Consistent(s, h, c) && NamesSynced(s)
    ensures NamesSynced(AppendStep(s, bodies, fault, c))
  {
    if s.live.Some? && Acceptable(s.live.value, bodies, c) && !fault.DuringWrite? && !fault.BeforeSync? {
      AppendWhole(s, h, bodies, fault, c);
      LinesWhole(START, h.kept + bodies, c);
      IndexWithin(AppendStep(s, bodies, fault, c), h.kept + bodies, c);
    }
  }

  lemma IndexWithin(s: State, named: seq<Body>, c: Codec)
    requires Names(s, named, c)
    ensures MarkerOf(s.disk).number <= |named| && (s.safe.anchor.Some? ==> s.safe.anchor.value.number <= |named|)
    ensures forall k :: k in s.disk.index ==> k <= |named|
  {
    var n: nat :| IndexPrefix(s.disk.index, Lines(START, named, c), n);
  }

  /** An operation keeps the names within the synced lines exactly when it is not such an open. */
  lemma StepSyncedIff(s: State, h: History, op: Op, c: Codec)
    requires Injective(c.hash) && Consistent(s, h, c) && NamesSynced(s)
    ensures NamesSynced(Step(s, op, c)) <==> !Exposes(s, op, c)
  {
    match op
    case Open(fault) => OpenSyncedIff(s, h, fault, c);
    case Append(bodies, fault) => AppendSynced(s, h, bodies, fault, c);
    case Close =>
    case PowerLoss(loss) =>
  }

  ghost predicate AlwaysSynced(run: Order<Op>, c: Codec)
  {
    NamesSynced(Run(run, c)) && (run.Then? ==> AlwaysSynced(run.before, c))
  }

  ghost predicate NeverExposes(run: Order<Op>, c: Codec)
  {
    run.Then? ==> NeverExposes(run.before, c) && !Exposes(Run(run.before, c), run.key, c)
  }

  /** In a run, anchor and index always name synced lines exactly when no open commits over unsynced ones. */
  lemma {:induction false} RunSyncedIff(run: Order<Op>, c: Codec)
    requires Injective(c.hash)
    ensures AlwaysSynced(run, c) <==> NeverExposes(run, c)
  {
    if run.Then? {
      RunSyncedIff(run.before, c);
      RunConsistent(run.before, c);
      if AlwaysSynced(run.before, c) { StepSyncedIff(Run(run.before, c), Told(run.before, c), run.key, c); }
    }
  }

  /** In such a run an open refuses only for a torn line or a missing anchor. */
  lemma UnexposedRecovers(run: Order<Op>, c: Codec)
    requires Injective(c.hash) && NeverExposes(run, c)
    ensures var d := Run(run, c).disk; Recover(d, c).Some? <==> Torn !in LogOf(d) && (d.log.Some? ==> d.anchor.Some?)
  {
    RunSyncedIff(run, c);
    RunConsistent(run, c);
    RunRecovers(run, c);
  }

  // ---- Refusals that last ----

  /** No process is live, opening is refused, and a power loss has nothing left to take back. */
  ghost predicate Stuck(s: State, c: Codec)
  {
    && s.live.None? && Recover(s.disk, c).None? && s.disk.log.Some?
    && s.safe == Safe(|LogOf(s.disk)|, s.disk.anchor, true)
  }

  lemma StuckStep(s: State, op: Op, c: Codec)
    requires Stuck(s, c)
    ensures Step(s, op, c) == s
  {
    assert LogOf(s.disk)[..|LogOf(s.disk)|] + [] == LogOf(s.disk);
  }

  /** A refusal of what is wholly synced is final: nothing the journal does changes the disk again. */
  lemma {:induction false} StuckStays(run: Order<Op>, earlier: Order<Op>, c: Codec)
    requires Stuck(Run(earlier, c), c) && Extends(run, earlier)
    ensures Run(run, c) == Run(earlier, c)
    decreases run
  {
    if run != earlier {
      StuckStays(run.before, earlier, c);
      StuckStep(Run(run.before, c), run.key, c);
    }
  }

  /** A first open that stopped before writing its anchor: the log exists, the anchor does not, and no open
      succeeds again. */
  lemma UnanchoredStart(c: Codec)
    ensures var s := Run(Then(Start, Open(AfterCreate)), c); s.disk.log == Some([]) && s.disk.anchor.None? && Stuck(s, c)
  {
    assert Recover(FRESH.disk, c).Some?;
    assert Run(Start, c) == FRESH;
  }

  /** A process stops between writing its first group and syncing it. */
  function Unsynced(body: Body): Order<Op>
  {
    Then(Then(Start, Open(Opened)), Append([body], BeforeSync))
  }

  lemma UnsyncedRun(body: Body, c: Codec)
    requires Injective(c.hash) && c.size(NextEvent(START, body)) <= MAX_EVENT
    ensures var s := Run(Unsynced(body), c);
            && Kept(Unsynced(body), c) == [body] && LogOf(s.disk) == Lines(START, [body], c) && Openable(s.disk)
            && s.disk.log.Some? && s.safe == Safe(0, Some(Marker(0, ZERO)), true) && s.live.None?
  {
    RunRecovers(Start, c);
    var started := Then(Start, Open(Opened));
    assert Run(started, c).live == Some(START);
    assert Acceptable(START, [body], c) by { assert TotalSize(After(START, body, c), [], c) == 0; }
    RunConsistent(started, c);
    assert Run(Unsynced(body), c).disk.index == Run(started, c).disk.index == map[];
  }

  /** The next process opens and anchors the group from the page cache, and a power loss takes the lines
      back: the anchor is there, no line is torn, and every later open refuses. */
  lemma UnsyncedReopen(body: Body, c: Codec)
    requires Injective(c.hash) && c.size(NextEvent(START, body)) <= MAX_EVENT
    ensures var run := Then(Then(Unsynced(body), Open(Opened)), PowerLoss(Loss(0, false, true, true)));
            var d := Run(run, c).disk;
            && LogOf(d) == [] && d.anchor == Some(Marker(1, c.hash(NextEvent(START, body)))) && Stuck(Run(run, c), c)
  {
    var reopened := Then(Unsynced(body), Open(Opened));
    UnsyncedRun(body, c);
    ReopenedAnchors(Unsynced(body), body, c);
    AheadRefused(LossStep(Run(reopened, c), Loss(0, false, true, true)).disk, c);
  }

  /** Opening over one unsynced line anchors it. */
  lemma ReopenedAnchors(run: Order<Op>, body: Body, c: Codec)
    requires Injective(c.hash) && Kept(run, c) == [body] && Openable(Run(run, c).disk) && Run(run, c).disk.log.Some?
    requires Run(run, c).safe.lines == 0 && Run(run, c).safe.log && Run(run, c).live.None?
    ensures var s := Run(Then(run, Open(Opened)), c);
            var anchor := Some(Marker(1, c.hash(NextEvent(START, body))));
            s.disk.log.Some? && s.disk.anchor == anchor && s.safe == Safe(0, anchor, true)
  {
    RunRecovers(run, c);
    assert End(START, [body], c) == After(START, body, c) by { assert End(After(START, body, c), [], c) == After(START, body, c); }
  }

  /** A log shorter than its anchor is refused. */
  lemma AheadRefused(d: Disk, c: Codec)
    requires MarkerOf(d).number > |LogOf(d)|
    ensures Recover(d, c).None?
  {
    if Recover(d, c).Some? { OpenOnly(d, c); }
  }

  // ---- The journal object ----

  lemma {:induction false} TotalSplit(p: Position, a: seq<Body>, b: seq<Body>, c: Codec)
    ensures TotalSize(p, a + b, c) == TotalSize(p, a, c) + TotalSize(End(p, a, c), b, c)
    decreases |a|
  {
    if a == [] {
      assert a + b == b;
    } else {
      TotalSplit(After(p, a[0], c), a[1..], b, c);
      assert (a + b)[1..] == a[1..] + b;
    }
  }

  lemma ExtendGroup(p: Position, bodies: seq<Body>, k: nat, c: Codec)
    requires k < |bodies|
    ensures Lines(p, bodies[..k + 1], c) ==
            var e := NextEvent(End(p, bodies[..k], c), bodies[k]); Lines(p, bodies[..k], c) + [Whole(e, c.hash(e))]
    ensures End(p, bodies[..k + 1], c) == After(End(p, bodies[..k], c), bodies[k], c)
    ensures TotalSize(p, bodies[..k + 1], c) ==
            TotalSize(p, bodies[..k], c) + c.size(NextEvent(End(p, bodies[..k], c), bodies[k]))
    ensures TotalSize(p, bodies[..k + 1], c) <= TotalSize(p, bodies, c)
  {
    var a, x := bodies[..k], bodies[k];
    var q := End(p, a, c);
    assert bodies[..k + 1] == a + [x];
    LinesAppend(p, a, [x], c);
    TotalSplit(p, a, [x], c);
    assert [x][1..] == [];
    assert Lines(q, [x], c) == [Whole(NextEvent(q, x), c.hash(NextEvent(q, x)))] + Lines(After(q, x, c), [], c);
    assert End(q, [x], c) == End(After(q, x, c), [], c);
    assert TotalSize(q, [x], c) == c.size(NextEvent(q, x)) + TotalSize(After(q, x, c), [], c);
    assert bodies == bodies[..k + 1] + bodies[k + 1..];
    TotalSplit(p, bodies[..k + 1], bodies[k + 1..], c);
  }

  lemma {:induction false} IndexOneMore(index: map<nat, Row>, lines: seq<Line>, k: nat, sofar: map<nat, Row>)
    requires k < |lines| && IndexLines(index, lines[..k]) == Some(sofar) && lines[k].Whole?
    ensures IndexLines(index, lines[..k + 1]) == IndexEvent(sofar, lines[k].event, lines[k].digest)
    ensures IndexEvent(sofar, lines[k].event, lines[k].digest).None? ==> IndexLines(index, lines) == None
    decreases k
  {
    if k == 0 {
      assert lines[..1] == [lines[0]] && lines[..1][1..] == [];
      assert lines[..0] == [];
    } else {
      assert lines[..k][1..] == lines[1..][..k - 1] && lines[..k + 1][1..] == lines[1..][..k];
      var next := IndexEvent(index, lines[0].event, lines[0].digest).value;
      IndexOneMore(next, lines[1..], k - 1, sofar);
    }
  }

  lemma {:induction false} BodyAt(lines: seq<Line>, i: nat)
    requires i < |lines|
    ensures Bodies(lines)[i] == if lines[i].Whole? then lines[i].event.body else ""
    decreases i
  {
    if i > 0 { BodyAt(lines[1..], i - 1); }
  }

  lemma {:induction false} LineAt(p: Position, bodies: seq<Body>, i: nat, c: Codec)
    requires i < |bodies|
    ensures var e := NextEvent(End(p, bodies[..i], c), bodies[i]);
            Lines(p, bodies, c)[i] == Whole(e, c.hash(e)) && (Fits(p, bodies, c) ==> c.size(e) <= MAX_EVENT)
    decreases i
  {
    if i > 0 {
      var q := After(p, bodies[0], c);
      LineAt(q, bodies[1..], i - 1, c);
      assert bodies[..i][1..] == bodies[1..][..i - 1];
      assert End(p, bodies[..i], c) == End(q, bodies[1..][..i - 1], c);
    } else {
      assert bodies[..0] == [];
    }
  }

  /** A successor line extends the text of the bodies before it. */
  lemma ChainExtends(lines: seq<Line>, i: nat, c: Codec)
    requires i < |lines|
    requires lines[..i] == Lines(START, Bodies(lines)[..i], c) && Fits(START, Bodies(lines)[..i], c)
    requires var e := NextEvent(End(START, Bodies(lines)[..i], c), Bodies(lines)[i]);
             lines[i] == Whole(e, c.hash(e)) && c.size(e) <= MAX_EVENT
    ensures var bodies := Bodies(lines);
            lines[..i + 1] == Lines(START, bodies[..i + 1], c) && Fits(START, bodies[..i + 1], c) &&
            End(START, bodies[..i + 1], c) == After(End(START, bodies[..i], c), bodies[i], c)
  {
    var bodies := Bodies(lines);
    ExtendGroup(START, bodies, i, c);
    FitsNext(bodies, i, c);
    assert lines[..i + 1] == lines[..i] + [lines[i]];
  }

  lemma FitsNext(bodies: seq<Body>, i: nat, c: Codec)
    requires i < |bodies| && Fits(START, bodies[..i], c)
    requires c.size(NextEvent(End(START, bodies[..i], c), bodies[i])) <= MAX_EVENT
    ensures Fits(START, bodies[..i + 1], c)
  {
    var a, x := bodies[..i], bodies[i];
    assert bodies[..i + 1] == a + [x];
    LinesAppend(START, a, [x], c);
    assert Fits(End(START, a, c), [x], c) by { assert [x][1..] == []; }
  }

  /** A complete line within the bound that is next in the chain and authentic. */
  predicate Continues(line: Line, at: Position, c: Codec)
  {
    && line.Whole? && c.size(line.event) <= MAX_EVENT
    && line.event.number == at.sequence + 1 && line.event.previous == at.digest && c.hash(line.event) == line.digest
  }

  /** A line that continues the chain extends the text of the bodies before it; any other breaks it. */
  lemma NextLine(lines: seq<Line>, i: nat, at: Position, c: Codec)
    requires i < |lines| && at == End(START, Bodies(lines)[..i], c)
    requires lines[..i] == Lines(START, Bodies(lines)[..i], c) && Fits(START, Bodies(lines)[..i], c)
    ensures var bodies := Bodies(lines);
            if Continues(lines[i], at, c)
            then && bodies[i] == lines[i].event.body && lines[..i + 1] == Lines(START, bodies[..i + 1], c)
                 && Fits(START, bodies[..i + 1], c)
                 && End(START, bodies[..i + 1], c) == Position(lines[i].event.number, lines[i].digest)
            else !(lines == Lines(START, bodies, c) && Fits(START, bodies, c))
  {
    BodyAt(lines, i);
    if Continues(lines[i], at, c) {
      ChainExtends(lines, i, c);
    } else {
      LineAt(START, Bodies(lines), i, c);
    }
  }

  class Journal {
    const codec: Codec
    /** The three files, and what of them is synced. */
    var disk: Disk
    var safe: Safe
    /** Whether the handles are open, and the writer's position while they are. */
    var isOpen: bool
    var sequence: nat
    var digest: Digest

    constructor (codec: Codec, disk: Disk, safe: Safe)
      ensures this.codec == codec && Abstract() == State(disk, safe, None)
    {
      this.codec, this.disk, this.safe := codec, disk, safe;
      isOpen, sequence, digest := false, 0, ZERO;
    }

    ghost function Abstract(): State
      reads this
    {
      State(disk, safe, if isOpen then Some(Position(sequence, digest)) else None)
    }

    /** Reads the whole log against the anchor and rebuilds the index; nothing is changed on disk
        before the log, the anchor and the index have all been found to agree. */
    method Open(fault: OpenFault) returns (ok: bool)
      modifies this
      ensures Abstract() == OpenStep(old(Abstract()), fault, codec)
      ensures ok <==> !old(isOpen) && Recover(old(disk), codec).Some? && fault.Opened?
    {
      if isOpen { return false; }
      if disk.log.Some? && disk.anchor.None? { return false; }
      var marker := MarkerOf(disk);
      var lines := LogOf(disk);
      var present := disk.log.Some?;
      disk := disk.(log := Some(lines));
      if fault.BeforeNameSync? { return false; }
      safe := safe.(log := safe.log || !present);
      var result := ScanLog(lines, Scanned(START, marker == Marker(0, ZERO), disk.index), marker);
      if result.None? { return false; }
      var scanned := result.value;
      if !scanned.seen || !IndexComplete(scanned.index, scanned.at.sequence) { return false; }
      if fault.AfterCreate? || fault.BeforeCommit? { return false; }
      disk := disk.(index := scanned.index);
      if fault.BeforeNewAnchor? { return false; }
      disk := disk.(anchor := Some(Marker(scanned.at.sequence, scanned.at.digest)));
      if fault.BeforeNewAnchorSync? { return false; }
      safe := safe.(anchor := disk.anchor);
      isOpen, sequence, digest := true, scanned.at.sequence, scanned.at.digest;
      ok := true;
    }

    method ScanLog(lines: seq<Line>, start: Scanned, marker: Marker) returns (r: Option<Scanned>)
      ensures r == Scan(lines, start, marker, codec)
    {
      var scanned := start;
      var i := 0;
      while i < |lines|
        invariant 0 <= i <= |lines|
        invariant Scan(lines, start, marker, codec) == Scan(lines[i..], scanned, marker, codec)
      {
        assert lines[i..][1..] == lines[i + 1..];
        var next := ScanLine(lines[i], scanned, marker, codec);
        if next.None? { return None; }
        scanned := next.value;
        i := i + 1;
      }
      r := Some(scanned);
    }

    /** The lines of a group, or a refusal when one of them or the group exceeds the bound. */
    method BuildGroup(bodies: seq<Body>) returns (r: Result<seq<Line>>, end: Position)
      ensures var p := Position(sequence, digest);
              if TotalSize(p, bodies, codec) <= MAX_EVENT
              then r == Ok(Lines(p, bodies, codec)) && end == End(p, bodies, codec)
              else r.Refused?
    {
      ghost var p := Position(sequence, digest);
      end := Position(sequence, digest);
      var lines: seq<Line> := [];
      var total := 0;
      var k := 0;
      while k < |bodies|
        invariant 0 <= k <= |bodies|
        invariant lines == Lines(p, bodies[..k], codec) && end == End(p, bodies[..k], codec)
        invariant total == TotalSize(p, bodies[..k], codec) <= MAX_EVENT
      {
        ExtendGroup(p, bodies, k, codec);
        var event := NextEvent(end, bodies[k]);
        total := total + codec.size(event);
        if codec.size(event) > MAX_EVENT || total > MAX_EVENT { return Refused, end; }
        lines := lines + [Whole(event, codec.hash(event))];
        end := After(end, bodies[k], codec);
        k := k + 1;
      }
      assert bodies[..k] == bodies;
      r := Ok(lines);
    }

    /** Inserts the rows of a group. */
    method IndexAll(lines: seq<Line>) returns (r: Option<map<nat, Row>>)
      requires forall i :: 0 <= i < |lines| ==> lines[i].Whole?
      ensures r == IndexLines(disk.index, lines)
    {
      var index := disk.index;
      var k := 0;
      assert lines[..0] == [];
      while k < |lines|
        invariant 0 <= k <= |lines| && IndexLines(disk.index, lines[..k]) == Some(index)
      {
        IndexOneMore(disk.index, lines, k, index);
        var next := IndexEvent(index, lines[k].event, lines[k].digest);
        if next.None? { return None; }
        index := next.value;
        k := k + 1;
      }
      assert lines[..k] == lines;
      r := Some(index);
    }

    /** Appends a group: log, then anchor, then index. Any failure closes the journal. */
    method AppendMany(bodies: seq<Body>, fault: AppendFault) returns (r: Result<seq<nat>>)
      modifies this
      ensures Abstract() == AppendStep(old(Abstract()), bodies, fault, codec)
      ensures r.Ok? ==> old(isOpen) && isOpen && |r.value| == |bodies| &&
                        forall i :: 0 <= i < |bodies| ==> r.value[i] == old(sequence) + i + 1
      ensures r.Ok? <==> old(isOpen) && isOpen && 1 <= |bodies| && sequence == old(sequence) + |bodies|
    {
      if !(1 <= |bodies| <= MAX_BATCH) || !isOpen { return Refused; }
      ghost var p := Position(sequence, digest);
      var lines, end := BuildGroup(bodies);
      if lines.Refused? { return Refused; }
      LinesWhole(p, bodies, codec);
      var log := LogOf(disk);
      if fault.DuringWrite? {
        var written := if fault.lines < |bodies| then lines.value[..fault.lines] + (if fault.torn then [Torn] else [])
                       else lines.value;
        disk := disk.(log := Some(log + written));
        isOpen := false;
        return Refused;
      }
      disk := disk.(log := Some(log + lines.value));
      if fault.BeforeSync? { isOpen := false; return Refused; }
      safe := safe.(lines := |log + lines.value|);
      if fault.BeforeAnchor? { isOpen := false; return Refused; }
      disk := disk.(anchor := Some(Marker(end.sequence, end.digest)));
      if fault.BeforeAnchorSync? { isOpen := false; return Refused; }
      safe := safe.(anchor := disk.anchor);
      if fault.BeforeIndex? { isOpen := false; return Refused; }
      var index := IndexAll(lines.value);
      if index.None? { isOpen := false; return Refused; }
      disk := disk.(index := index.value);
      var first := sequence;
      sequence, digest := end.sequence, end.digest;
      r := Ok(seq(|bodies|, i requires 0 <= i < |bodies| => first + i + 1));
    }

    /** Replays the log for a consumer, checking the chain again up to the writer's position. */
    method Events() returns (r: Result<seq<Body>>)
      requires isOpen
      ensures r.Ok? <==> LogOf(disk) == Lines(START, Bodies(LogOf(disk)), codec) && Fits(START, Bodies(LogOf(disk)), codec) &&
                         End(START, Bodies(LogOf(disk)), codec) == Position(sequence, digest)
      ensures r.Ok? ==> r.value == Bodies(LogOf(disk))
    {
      var lines := LogOf(disk);
      ghost var bodies := Bodies(lines);
      LinesWhole(START, bodies, codec);
      if |lines| != sequence { return Refused; }
      var at := START;
      var out: seq<Body> := [];
      var i := 0;
      while i < |lines|
        invariant 0 <= i <= |lines| && out == bodies[..i]
        invariant lines[..i] == Lines(START, bodies[..i], codec) && Fits(START, bodies[..i], codec)
        invariant at == End(START, bodies[..i], codec)
      {
        NextLine(lines, i, at, codec);
        if !Continues(lines[i], at, codec) { return Refused; }
        out := out + [lines[i].event.body];
        at := Position(lines[i].event.number, lines[i].digest);
        i := i + 1;
      }
      assert bodies[..i] == bodies && lines[..i] == lines;
      if at.digest != digest { return Refused; }
      r := Ok(out);
    }

    method Close()
      modifies this`isOpen
      ensures Abstract() == State(disk, safe, None)
    {
      isOpen := false;
    }
  }
}
