/** The journal's durable state: a hash-chained event log, the rollback anchor kept outside it, and
    the rebuildable index. Recovery is a function of that state. */
module JournalLog {
  import opened Outcomes
  import opened Bytes
  import opened Orders

  type Digest = string
  /** The kind and payload of an event, as encoded. */
  type Body = string

  const ZERO: Digest := "0000000000000000000000000000000000000000000000000000000000000000"
  const MAX_EVENT: nat := 2 * 8_000_000 + 64 * 1024 + 64 * 1024
  const MAX_BATCH: nat := 8

  datatype Event = Event(number: nat, previous: Digest, body: Body)

  /** A line of the log: an event with its digest, or bytes that are not a complete event line. */
  datatype Line = Whole(event: Event, digest: Digest) | Torn

  datatype Marker = Marker(number: nat, digest: Digest)

  /** A row of the index: the digest, and the cached event, which is never trusted. */
  datatype Row = Row(digest: Digest, cached: Event)

  datatype Disk = Disk(log: Option<seq<Line>>, anchor: Option<Marker>, index: map<nat, Row>)

  /** SHA-256 over the encoded event, and the length of its encoded line. */
  datatype Codec = Codec(hash: Event -> Digest, size: Event -> nat)

  /** The writer's position: how many events, and the digest the next one must name. */
  datatype Position = Position(sequence: nat, digest: Digest)

  const START: Position := Position(0, ZERO)

  // ---- The log text of a list of event bodies ----

  function NextEvent(p: Position, body: Body): Event
  {
    Event(p.sequence + 1, p.digest, body)
  }

  function After(p: Position, body: Body, c: Codec): Position
  {
    Position(p.sequence + 1, c.hash(NextEvent(p, body)))
  }

  function End(p: Position, bodies: seq<Body>, c: Codec): Position
    decreases |bodies|
  {
    if bodies == [] then p else End(After(p, bodies[0], c), bodies[1..], c)
  }

  function Lines(p: Position, bodies: seq<Body>, c: Codec): (s: seq<Line>)
    ensures |s| == |bodies|
    decreases |bodies|
  {
    if bodies == [] then []
    else [Whole(NextEvent(p, bodies[0]), c.hash(NextEvent(p, bodies[0])))] + Lines(After(p, bodies[0], c), bodies[1..], c)
  }

  /** Every line fits the bound. */
  predicate Fits(p: Position, bodies: seq<Body>, c: Codec)
    decreases |bodies|
  {
    bodies == [] ||
    (c.size(NextEvent(p, bodies[0])) <= MAX_EVENT && Fits(After(p, bodies[0], c), bodies[1..], c))
  }

  // ---- Indexing ----

  /** Inserts a row or repairs its cached event; a different digest for the sequence, or the same
      digest elsewhere, is refused. */
  function IndexEvent(index: map<nat, Row>, e: Event, digest: Digest): Option<map<nat, Row>>
  {
    if e.number in index then
      if index[e.number].digest != digest then None else Some(index[e.number := Row(digest, e)])
    else if exists k :: k in index && index[k].digest == digest then None
    else Some(index[e.number := Row(digest, e)])
  }

  /** `SELECT COUNT(*), COALESCE(MAX(seq), 0)` gives the sequence twice. */
  predicate IndexComplete(index: map<nat, Row>, sequence: nat)
  {
    |index| == sequence && (forall k :: k in index ==> k <= sequence) && (sequence > 0 ==> sequence in index)
  }

  // ---- Recovery ----

  datatype Scanned = Scanned(at: Position, seen: bool, index: map<nat, Row>)

  /** One line: complete, next in the chain, authentic, agreeing with the anchor, and indexed. */
  function ScanLine(line: Line, s: Scanned, marker: Marker, c: Codec): Option<Scanned>
  {
    if line.Torn? || c.size(line.event) > MAX_EVENT then None
    else if line.event.number != s.at.sequence + 1 || line.event.previous != s.at.digest then None
    else if c.hash(line.event) != line.digest then None
    else if line.event.number == marker.number && line.digest != marker.digest then None
    else
      match IndexEvent(s.index, line.event, line.digest)
      case None => None
      case Some(index) =>
        Some(Scanned(Position(line.event.number, line.digest), s.seen || line.event.number == marker.number, index))
  }

  function Scan(lines: seq<Line>, s: Scanned, marker: Marker, c: Codec): Option<Scanned>
  {
    if lines == [] then Some(s)
    else
      match ScanLine(lines[0], s, marker, c)
      case None => None
      case Some(t) => Scan(lines[1..], t, marker, c)
  }

  function MarkerOf(d: Disk): Marker
  {
    if d.anchor.Some? then d.anchor.value else Marker(0, ZERO)
  }

  function LogOf(d: Disk): seq<Line>
  {
    if d.log.Some? then d.log.value else []
  }

  /** What opening the journal computes: a refusal, or the position and the index to commit. */
  function Recover(d: Disk, c: Codec): Option<Scanned>
  {
    if d.log.Some? && d.anchor.None? then None
    else
      var marker := MarkerOf(d);
      match Scan(LogOf(d), Scanned(START, marker == Marker(0, ZERO), d.index), marker, c)
      case None => None
      case Some(s) => if s.seen && IndexComplete(s.index, s.at.sequence) then Some(s) else None
  }

  // ---- What an accepted scan says about the log ----

  /** The index holds exactly the events of the log, row k the k-th line. */
  ghost predicate IndexEquals(index: map<nat, Row>, lines: seq<Line>)
  {
    && (forall k: nat {:trigger k in index} :: k in index <==> 1 <= k <= |lines|)
    && (forall k: nat {:trigger index[k]} :: k in index ==>
          lines[k - 1].Whole? && index[k] == Row(lines[k - 1].digest, lines[k - 1].event))
  }

  lemma {:induction false} LinesWhole(p: Position, bodies: seq<Body>, c: Codec)
    ensures forall i :: 0 <= i < |bodies| ==> Lines(p, bodies, c)[i].Whole?
    ensures End(p, bodies, c).sequence == p.sequence + |bodies|
    decreases |bodies|
  {
    if bodies != [] { LinesWhole(After(p, bodies[0], c), bodies[1..], c); }
  }

  lemma {:induction false} LinesAppend(p: Position, a: seq<Body>, b: seq<Body>, c: Codec)
    ensures Lines(p, a + b, c) == Lines(p, a, c) + Lines(End(p, a, c), b, c)
    ensures End(p, a + b, c) == End(End(p, a, c), b, c)
    ensures Fits(p, a + b, c) <==> Fits(p, a, c) && Fits(End(p, a, c), b, c)
    decreases |a|
  {
    if a == [] {
      assert a + b == b;
    } else {
      LinesAppend(After(p, a[0], c), a[1..], b, c);
      assert (a + b)[1..] == a[1..] + b;
    }
  }

  /** The bodies of whole lines. */
  function Bodies(lines: seq<Line>): (s: seq<Body>)
    ensures |s| == |lines|
  {
    if lines == [] then []
    else [if lines[0].Whole? then lines[0].event.body else ""] + Bodies(lines[1..])
  }

  /** A scanned log is the text of its own bodies: complete, consecutive and chained. */
  lemma {:induction false} ScanSound(lines: seq<Line>, s: Scanned, marker: Marker, c: Codec)
    requires Scan(lines, s, marker, c).Some?
    ensures lines == Lines(s.at, Bodies(lines), c) && Fits(s.at, Bodies(lines), c)
    ensures Scan(lines, s, marker, c).value.at == End(s.at, Bodies(lines), c)
  {
    if lines != [] {
      var t := ScanLine(lines[0], s, marker, c).value;
      ScanSound(lines[1..], t, marker, c);
      assert lines == [lines[0]] + lines[1..];
      assert Bodies(lines)[1..] == Bodies(lines[1..]);
    }
  }

  /** The rows the scan has put in place: those numbered after `from` up to the scan's position. */
  ghost predicate Indexed(index: map<nat, Row>, lines: seq<Line>, from: nat)
  {
    forall i {:trigger lines[i]} :: 0 <= i < |lines| && lines[i].Whole? ==>
      from + i + 1 in index && index[from + i + 1] == Row(lines[i].digest, lines[i].event)
  }

  lemma {:induction false} ScanIndexes(lines: seq<Line>, s: Scanned, marker: Marker, c: Codec)
    requires Scan(lines, s, marker, c).Some?
    ensures var t := Scan(lines, s, marker, c).value;
            && Indexed(t.index, lines, s.at.sequence)
            && (forall k :: k in t.index && k <= s.at.sequence ==> k in s.index && t.index[k] == s.index[k])
            && (forall k :: k in s.index ==> k in t.index)
            && t.at.sequence == s.at.sequence + |lines|
  {
    if lines != [] {
      var u := ScanLine(lines[0], s, marker, c).value;
      ScanIndexes(lines[1..], u, marker, c);
      var t := Scan(lines, s, marker, c).value;
      forall i | 0 <= i < |lines| && lines[i].Whole?
        ensures s.at.sequence + i + 1 in t.index
        ensures t.index[s.at.sequence + i + 1] == Row(lines[i].digest, lines[i].event)
      {
        if i > 0 { assert lines[i] == lines[1..][i - 1]; }
      }
    }
  }

  lemma {:induction false} ScanMarker(lines: seq<Line>, s: Scanned, marker: Marker, c: Codec)
    requires Scan(lines, s, marker, c).Some?
    ensures var inside := s.at.sequence < marker.number <= s.at.sequence + |lines|;
            && Scan(lines, s, marker, c).value.seen == (s.seen || inside)
            && (inside ==> End(s.at, Bodies(lines)[..marker.number - s.at.sequence], c).digest == marker.digest)
  {
    if lines != [] {
      var t := ScanLine(lines[0], s, marker, c).value;
      ScanMarker(lines[1..], t, marker, c);
      var n := marker.number - s.at.sequence;
      var b := Bodies(lines);
      assert b[1..] == Bodies(lines[1..]);
      if 1 <= n <= |lines| {
        assert b[..n][0] == b[0] && b[..n][1..] == b[1..][..n - 1];
        assert End(t.at, [], c) == t.at;
      }
    }
  }

  // ---- Sets of row numbers ----

  ghost function Numbers(n: nat): (s: set<nat>)
    ensures forall k: nat {:trigger k in s} :: k in s <==> 1 <= k <= n
    ensures |s| == n
  {
    if n == 0 then {} else Numbers(n - 1) + {n}
  }

  // ---- What an accepted open means ----

  /** The anchor names a position of the log and the digest the log has there. */
  ghost predicate AnchoredIn(marker: Marker, bodies: seq<Body>, c: Codec)
  {
    marker == Marker(0, ZERO) ||
    (1 <= marker.number <= |bodies| && End(START, bodies[..marker.number], c).digest == marker.digest)
  }

  /** Whatever was on disk, an accepted open has read an unbroken chain of whole events that
      contains the anchored position, and its index holds exactly those events. */
  lemma RecoverSound(d: Disk, c: Codec)
    requires Recover(d, c).Some?
    ensures var r := Recover(d, c).value;
            var bodies := Bodies(LogOf(d));
            && LogOf(d) == Lines(START, bodies, c) && Fits(START, bodies, c)
            && r.at == End(START, bodies, c) && r.at.sequence == |bodies|
            && IndexEquals(r.index, LogOf(d))
            && AnchoredIn(MarkerOf(d), bodies, c)
  {
    var marker := MarkerOf(d);
    var s := Scanned(START, marker == Marker(0, ZERO), d.index);
    ScanSound(LogOf(d), s, marker, c);
    LinesWhole(START, Bodies(LogOf(d)), c);
    RecoverRows(d, c);
    ScanMarker(LogOf(d), s, marker, c);
  }

  lemma RecoverRows(d: Disk, c: Codec)
    requires Recover(d, c).Some?
    ensures IndexEquals(Recover(d, c).value.index, LogOf(d))
  {
    var lines, marker := LogOf(d), MarkerOf(d);
    var s := Scanned(START, marker == Marker(0, ZERO), d.index);
    ScanSound(lines, s, marker, c);
    LinesWhole(START, Bodies(lines), c);
    ScanIndexes(lines, s, marker, c);
    RecoverIndex(Recover(d, c).value.index, lines);
  }

  lemma RecoverIndex(index: map<nat, Row>, lines: seq<Line>)
    requires IndexComplete(index, |lines|) && Indexed(index, lines, 0)
    requires forall i :: 0 <= i < |lines| ==> lines[i].Whole?
    ensures IndexEquals(index, lines)
  {
    forall k | k in Numbers(|lines|) ensures k in index.Keys {
      assert lines[k - 1].Whole?;
    }
    assert |index.Keys| == |index|;
    SameSize(Numbers(|lines|), index.Keys);
    forall k: nat | k in index
      ensures 1 <= k <= |lines| && index[k] == Row(lines[k - 1].digest, lines[k - 1].event)
    {
      assert k in index.Keys && k in Numbers(|lines|);
      assert lines[k - 1].Whole?;
    }
    forall k: nat | 1 <= k <= |lines| ensures k in index {
      assert k in Numbers(|lines|);
    }
  }

  // ---- The chain binds its past ----

  ghost function EventsOf(bodies: seq<Body>, c: Codec): set<Event>
  {
    set i | 0 <= i < |bodies| :: NextEvent(End(START, bodies[..i], c), bodies[i])
  }

  lemma EndSnoc(bodies: seq<Body>, c: Codec)
    requires bodies != []
    ensures var n := |bodies| - 1;
            End(START, bodies, c) == After(End(START, bodies[..n], c), bodies[n], c)
    ensures NextEvent(End(START, bodies[..|bodies| - 1], c), bodies[|bodies| - 1]) in EventsOf(bodies, c)
  {
    var n := |bodies| - 1;
    assert bodies == bodies[..n] + [bodies[n]];
    LinesAppend(START, bodies[..n], [bodies[n]], c);
    var p := End(START, bodies[..n], c);
    assert End(p, [bodies[n]], c) == End(After(p, bodies[n], c), [], c);
  }

  lemma EventsPrefix(bodies: seq<Body>, n: nat, c: Codec)
    requires n <= |bodies|
    ensures EventsOf(bodies[..n], c) <= EventsOf(bodies, c)
  {
    forall e | e in EventsOf(bodies[..n], c) ensures e in EventsOf(bodies, c) {
      var i :| 0 <= i < n && e == NextEvent(End(START, bodies[..n][..i], c), bodies[..n][i]);
      assert bodies[..n][..i] == bodies[..i];
    }
  }

  /** Equal end digests of equally long chains mean equal chains. */
  lemma {:induction false} ChainBinds(a: seq<Body>, b: seq<Body>, c: Codec)
    requires |a| == |b| && End(START, a, c).digest == End(START, b, c).digest
    requires CollisionFree(c.hash, EventsOf(a, c) + EventsOf(b, c))
    ensures a == b
    decreases |a|
  {
    if a != [] {
      var n := |a| - 1;
      LastBinds(a, b, c);
      EventsPrefix(a, n, c);
      EventsPrefix(b, n, c);
      ChainBinds(a[..n], b[..n], c);
      assert a == a[..n] + [a[n]] && b == b[..n] + [b[n]];
    }
  }

  /** The last events are equal, and so are the digests before them. */
  lemma LastBinds(a: seq<Body>, b: seq<Body>, c: Codec)
    requires |a| == |b| > 0 && End(START, a, c).digest == End(START, b, c).digest
    requires CollisionFree(c.hash, EventsOf(a, c) + EventsOf(b, c))
    ensures var n := |a| - 1; a[n] == b[n] && End(START, a[..n], c).digest == End(START, b[..n], c).digest
  {
    EndSnoc(a, c);
    EndSnoc(b, c);
  }

  /** A log that lacks or alters any anchored event is refused: if the anchor was written for the
      first n events of `bodies`, every accepted log starts with exactly those events. */
  lemma AnchoredEventsSurvive(d: Disk, bodies: seq<Body>, n: nat, c: Codec)
    requires n <= |bodies| && d.anchor == Some(Marker(n, End(START, bodies[..n], c).digest))
    requires CollisionFree(c.hash, EventsOf(bodies, c) + EventsOf(Bodies(LogOf(d)), c))
    requires Recover(d, c).Some?
    ensures n <= |LogOf(d)| && LogOf(d)[..n] == Lines(START, bodies[..n], c)
  {
    RecoverSound(d, c);
    var found := Bodies(LogOf(d));
    if n > 0 { PrefixBinds(found, bodies, n, c); }
    LinesPrefix(found, n, c);
  }

  lemma LinesPrefix(bodies: seq<Body>, n: nat, c: Codec)
    requires n <= |bodies|
    ensures n <= |Lines(START, bodies, c)| && Lines(START, bodies, c)[..n] == Lines(START, bodies[..n], c)
  {
    assert bodies == bodies[..n] + bodies[n..];
    LinesAppend(START, bodies[..n], bodies[n..], c);
  }

  /** Two logs whose first n events end in the same digest start with the same n events. */
  lemma PrefixBinds(a: seq<Body>, b: seq<Body>, n: nat, c: Codec)
    requires n <= |a| && n <= |b| && End(START, a[..n], c).digest == End(START, b[..n], c).digest
    requires CollisionFree(c.hash, EventsOf(b, c) + EventsOf(a, c))
    ensures a[..n] == b[..n]
  {
    EventsPrefix(a, n, c);
    EventsPrefix(b, n, c);
    ChainBinds(a[..n], b[..n], c);
  }

  // ---- When recovery succeeds ----

  ghost predicate Injective(hash: Event -> Digest)
  {
    forall e, f :: hash(e) == hash(f) ==> e == f
  }

  /** Every row carries the digest of an event with the row's own number. */
  ghost predicate Authentic(index: map<nat, Row>, c: Codec)
  {
    forall k {:trigger index[k]} :: k in index ==> index[k].cached.number == k && c.hash(index[k].cached) == index[k].digest
  }

  /** Rows that lie within the lines to be scanned agree with them. */
  ghost predicate Agrees(index: map<nat, Row>, lines: seq<Line>, from: nat)
  {
    forall i {:trigger lines[i]} :: 0 <= i < |lines| && from + i + 1 in index ==>
      lines[i].Whole? && index[from + i + 1].digest == lines[i].digest
  }

  lemma IndexAccepts(index: map<nat, Row>, e: Event, c: Codec)
    requires Injective(c.hash) && Authentic(index, c)
    requires e.number in index ==> index[e.number].digest == c.hash(e)
    ensures IndexEvent(index, e, c.hash(e)) == Some(index[e.number := Row(c.hash(e), e)])
    ensures Authentic(index[e.number := Row(c.hash(e), e)], c)
  {
    if e.number !in index {
      forall k | k in index ensures index[k].digest != c.hash(e) {
        assert index[k].cached != e;
      }
    }
  }

  lemma ScanLineAccepts(body: Body, s: Scanned, marker: Marker, c: Codec)
    requires Injective(c.hash) && Authentic(s.index, c) && c.size(NextEvent(s.at, body)) <= MAX_EVENT
    requires s.at.sequence + 1 in s.index ==> s.index[s.at.sequence + 1].digest == c.hash(NextEvent(s.at, body))
    requires marker.number == s.at.sequence + 1 ==> marker.digest == c.hash(NextEvent(s.at, body))
    ensures var e := NextEvent(s.at, body);
            var t := ScanLine(Whole(e, c.hash(e)), s, marker, c);
            t.Some? && t.value.at == After(s.at, body, c) && Authentic(t.value.index, c) &&
            t.value.index == s.index[s.at.sequence + 1 := Row(c.hash(e), e)]
  {
    IndexAccepts(s.index, NextEvent(s.at, body), c);
  }

  /** The anchor, if it falls within these bodies, has the digest the chain has there. */
  ghost predicate MarkerFits(marker: Marker, p: Position, bodies: seq<Body>, c: Codec)
  {
    p.sequence < marker.number <= p.sequence + |bodies| ==>
      End(p, bodies[..marker.number - p.sequence], c).digest == marker.digest
  }

  lemma MarkerFitsStep(marker: Marker, p: Position, bodies: seq<Body>, c: Codec)
    requires bodies != [] && MarkerFits(marker, p, bodies, c)
    ensures MarkerFits(marker, After(p, bodies[0], c), bodies[1..], c)
    ensures marker.number == p.sequence + 1 ==> marker.digest == After(p, bodies[0], c).digest
  {
    var n := marker.number - p.sequence;
    if 1 <= n <= |bodies| {
      assert bodies[..n][0] == bodies[0] && bodies[..n][1..] == bodies[1..][..n - 1];
      assert n == 1 ==> End(After(p, bodies[0], c), bodies[1..][..0], c) == After(p, bodies[0], c);
    }
  }

  /** The text of any fitting list of bodies is scanned to its end, whatever correct part of it the
      index already holds, if the anchor agrees with it. */
  lemma {:induction false} ScanComplete(bodies: seq<Body>, s: Scanned, marker: Marker, c: Codec)
    requires Injective(c.hash) && Authentic(s.index, c) && Fits(s.at, bodies, c)
    requires Agrees(s.index, Lines(s.at, bodies, c), s.at.sequence) && MarkerFits(marker, s.at, bodies, c)
    ensures Scan(Lines(s.at, bodies, c), s, marker, c).Some?
    decreases |bodies|
  {
    if bodies != [] {
      var lines := Lines(s.at, bodies, c);
      var e := NextEvent(s.at, bodies[0]);
      assert lines[0] == Whole(e, c.hash(e));
      MarkerFitsStep(marker, s.at, bodies, c);
      ScanLineAccepts(bodies[0], s, marker, c);
      var t := ScanLine(lines[0], s, marker, c).value;
      AgreesNext(bodies, s, t, Row(c.hash(e), e), c);
      ScanComplete(bodies[1..], t, marker, c);
    }
  }

  lemma {:induction false} ScanKeys(lines: seq<Line>, s: Scanned, marker: Marker, c: Codec)
    requires Scan(lines, s, marker, c).Some?
    ensures forall k :: k in Scan(lines, s, marker, c).value.index ==>
              k in s.index || s.at.sequence < k <= s.at.sequence + |lines|
    decreases |lines|
  {
    if lines != [] { ScanKeys(lines[1..], ScanLine(lines[0], s, marker, c).value, marker, c); }
  }

  lemma AgreesNext(bodies: seq<Body>, s: Scanned, t: Scanned, row: Row, c: Codec)
    requires bodies != [] && Agrees(s.index, Lines(s.at, bodies, c), s.at.sequence)
    requires t.at == After(s.at, bodies[0], c) && t.index == s.index[s.at.sequence + 1 := row]
    ensures Agrees(t.index, Lines(t.at, bodies[1..], c), t.at.sequence)
    ensures Lines(s.at, bodies, c)[1..] == Lines(t.at, bodies[1..], c)
  {
    var lines, rest := Lines(s.at, bodies, c), Lines(t.at, bodies[1..], c);
    assert lines[1..] == rest;
    forall i | 0 <= i < |rest| && t.at.sequence + i + 1 in t.index
      ensures rest[i].Whole? && t.index[t.at.sequence + i + 1].digest == rest[i].digest
    {
      assert rest[i] == lines[i + 1];
    }
  }

  /** The index holds correct rows for some first part of the log, and nothing else. */
  ghost predicate IndexPrefix(index: map<nat, Row>, lines: seq<Line>, n: nat)
  {
    n <= |lines| && IndexEquals(index, lines[..n])
  }

  /** A log of whole events opens whenever its anchor and index trail it. */
  lemma RecoverComplete(d: Disk, bodies: seq<Body>, n: nat, c: Codec)
    requires Injective(c.hash) && Fits(START, bodies, c)
    requires LogOf(d) == Lines(START, bodies, c) && (d.log.Some? ==> d.anchor.Some?)
    requires AnchoredIn(MarkerOf(d), bodies, c) && IndexPrefix(d.index, Lines(START, bodies, c), n)
    ensures Recover(d, c).Some?
  {
    var lines := Lines(START, bodies, c);
    var marker := MarkerOf(d);
    var s := Scanned(START, marker == Marker(0, ZERO), d.index);
    LinesWhole(START, bodies, c);
    LinesAuthentic(START, bodies, c);
    PrefixAuthentic(d.index, lines, n, c);
    ScanComplete(bodies, s, marker, c);
    ScanKeys(lines, s, marker, c);
    ScanMarker(lines, s, marker, c);
    ScanIndexes(lines, s, marker, c);
    CompleteIndex(Scan(lines, s, marker, c).value.index, lines);
  }

  lemma {:induction false} LinesAuthentic(p: Position, bodies: seq<Body>, c: Codec)
    ensures forall i {:trigger Lines(p, bodies, c)[i]} :: 0 <= i < |bodies| ==>
              var l := Lines(p, bodies, c)[i];
              l.Whole? && l.event.number == p.sequence + i + 1 && c.hash(l.event) == l.digest
    decreases |bodies|
  {
    if bodies != [] { LinesAuthentic(After(p, bodies[0], c), bodies[1..], c); }
  }

  lemma PrefixAuthentic(index: map<nat, Row>, lines: seq<Line>, n: nat, c: Codec)
    requires IndexPrefix(index, lines, n)
    requires forall i :: 0 <= i < |lines| ==>
               lines[i].Whole? && lines[i].event.number == i + 1 && c.hash(lines[i].event) == lines[i].digest
    ensures Authentic(index, c) && Agrees(index, lines, 0)
    ensures forall k :: k in index ==> 1 <= k <= |lines|
  {
    forall k | k in index ensures index[k].cached.number == k && c.hash(index[k].cached) == index[k].digest {
      assert lines[..n][k - 1] == lines[k - 1];
    }
    forall i | 0 <= i < |lines| && 0 + i + 1 in index
      ensures lines[i].Whole? && index[0 + i + 1].digest == lines[i].digest
    {
      assert lines[..n][i + 1 - 1] == lines[i];
    }
  }

  lemma CompleteIndex(index: map<nat, Row>, lines: seq<Line>)
    requires forall k :: k in index ==> 1 <= k <= |lines|
    requires Indexed(index, lines, 0) && forall i :: 0 <= i < |lines| ==> lines[i].Whole?
    ensures IndexComplete(index, |lines|)
  {
    forall k | k in Numbers(|lines|) ensures k in index.Keys {
      assert lines[k - 1].Whole?;
    }
    assert index.Keys == Numbers(|lines|);
    assert |index| == |index.Keys|;
  }
}
