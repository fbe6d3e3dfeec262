/**
 Chunk-pointer extraction over a session that may expire: a walk that is rejected once logs in
 again and restarts from pointer 0, the natural-key filter drops what was already delivered,
 and the outcome is that of the uninterrupted walk.
 */
module Agility {
  import opened Outcomes

  datatype Header = Header(joinValue: Option<string>, lastChanged: Option<string>, fields: string)
  datatype Detail = Detail(joinValue: Option<string>, lineNo: Option<int>, fields: string)

  /** One response: its rowsets and its chunk fields (None: absent or of the wrong type). */
  datatype Payload = Payload(headers: seq<Header>, details: seq<Detail>, more: Option<bool>, next: Option<int>)

  datatype Record = Record(header: Header, detail: Detail)

  /** The pages the server holds for one request body, by chunk pointer. It repeats them on request. */
  type Pages = map<int, Payload>

  /** What follows `out`, if anything does. */
  function After<T>(out: seq<T>, rest: Option<seq<T>>): Option<seq<T>> {
    if rest.None? then None else Some(out + rest.value)
  }

  lemma AfterNothing<T>(rest: Option<seq<T>>)
    ensures After([], rest) == rest
  {
    if rest.Some? {
      assert [] + rest.value == rest.value;
    }
  }

  lemma AfterBoth<T>(a: seq<T>, b: seq<T>, rest: Option<seq<T>>)
    ensures After(a, After(b, rest)) == After(a + b, rest)
  {
    if rest.Some? {
      assert a + (b + rest.value) == (a + b) + rest.value;
    }
  }

  /* ---------- the uninterrupted walk ---------- */

  function Ahead(pages: Pages, pointer: int): set<int> {
    set p | p in pages && p > pointer
  }

  /** The payloads from a pointer on; None when the walk is refused. */
  function WalkFrom(pages: Pages, pointer: int): Option<seq<Payload>>
    decreases Ahead(pages, pointer) + if pointer in pages then {pointer} else {}
  {
    if pointer !in pages then None
    else
      var payload := pages[pointer];
      if payload.more.None? then None
      else if !payload.more.value then Some([payload])
      else if payload.next.None? || payload.next.value <= pointer then None
      else if payload.next.value !in pages then None
      else
        assert pointer in Ahead(pages, pointer) + {pointer};
        assert pointer !in Ahead(pages, payload.next.value) + {payload.next.value};
        assert Ahead(pages, payload.next.value) + {payload.next.value} <= Ahead(pages, pointer);
        After([payload], WalkFrom(pages, payload.next.value))
  }

  /* ---------- joining and observing one payload ---------- */

  /** The first header row with this join value. */
  function FirstHeader(headers: seq<Header>, value: string): Option<Header> {
    if headers == [] then None
    else if headers[0].joinValue == Some(value) then Some(headers[0])
    else FirstHeader(headers[1..], value)
  }

  /** The line records of a payload; None when a detail row has no header in it. */
  function Joined(headers: seq<Header>, details: seq<Detail>): Option<seq<Record>>
    decreases |details|
  {
    if details == [] then Some([])
    else
      var d := details[0];
      var header := if d.joinValue.Some? then FirstHeader(headers, d.joinValue.value) else None;
      if header.None? then None
      else After(if d.lineNo.Some? then [Record(header.value, d)] else [], Joined(headers, details[1..]))
  }

  /** The records of a list of payloads, in order; None when one of them does not join. */
  function RecordsOf(payloads: seq<Payload>): Option<seq<Record>> {
    if payloads == [] then Some([])
    else
      var first := Joined(payloads[0].headers, payloads[0].details);
      if first.None? then None else After(first.value, RecordsOf(payloads[1..]))
  }

  /** How stamps are ordered. */
  type Instants = string -> int

  /** The larger stamp, keeping the current text on a tie. */
  function Later(instant: Instants, current: Option<string>, stamp: Option<string>): Option<string> {
    if stamp.None? then current
    else if current.None? || instant(stamp.value) > instant(current.value) then stamp
    else current
  }

  function LatestHeader(instant: Instants, current: Option<string>, headers: seq<Header>): Option<string>
    decreases |headers|
  {
    if headers == [] then current
    else LatestHeader(instant, Later(instant, current, headers[0].lastChanged), headers[1..])
  }

  function Latest(instant: Instants, current: Option<string>, payloads: seq<Payload>): Option<string>
    decreases |payloads|
  {
    if payloads == [] then current
    else Latest(instant, LatestHeader(instant, current, payloads[0].headers), payloads[1..])
  }

  /* ---------- first occurrences ---------- */

  /** The natural key of a record. */
  type Identity = Record -> string

  function Ids(id: Identity, records: seq<Record>): set<string> {
    set r | r in records :: id(r)
  }

  /** The records whose key was not seen before, each key once. */
  function Fresh(id: Identity, seen: set<string>, records: seq<Record>): seq<Record>
    decreases |records|
  {
    if records == [] then []
    else (if id(records[0]) in seen then [] else [records[0]])
         + Fresh(id, seen + {id(records[0])}, records[1..])
  }

  /* ---------- a whole extraction, uninterrupted ---------- */

  /** What the extraction of several request bodies delivers when no session is lost. */
  function AllRecords(requests: seq<Pages>): Option<seq<Record>> {
    if requests == [] then Some([])
    else
      var walk := WalkFrom(requests[0], 0);
      if walk.None? then None
      else
        var first := RecordsOf(walk.value);
        if first.None? then None else After(first.value, AllRecords(requests[1..]))
  }

  function AllLatest(instant: Instants, current: Option<string>, requests: seq<Pages>): Option<string>
    decreases |requests|
  {
    if requests == [] || WalkFrom(requests[0], 0).None? then current
    else AllLatest(instant, Latest(instant, current, WalkFrom(requests[0], 0).value), requests[1..])
  }

  /* ---------- replays ---------- */

  /** The whole list, possibly after a proper prefix of it. */
  ghost predicate IsReplay(delivered: seq<Payload>, all: seq<Payload>) {
    delivered == all || exists k: nat | k < |all| :: delivered == all[..k] + all
  }

  lemma {:induction false} FreshAppend(id: Identity, seen: set<string>, a: seq<Record>, b: seq<Record>)
    ensures Fresh(id, seen, a + b) == Fresh(id, seen, a) + Fresh(id, seen + Ids(id, a), b)
    decreases |a|
  {
    if a == [] {
      assert a + b == b;
      assert seen + Ids(id, a) == seen;
    } else {
      assert (a + b)[1..] == a[1..] + b;
      FreshAppend(id, seen + {id(a[0])}, a[1..], b);
      assert a == [a[0]] + a[1..];
      assert seen + {id(a[0])} + Ids(id, a[1..]) == seen + Ids(id, a);
    }
  }

  lemma {:induction false} FreshOfSeen(id: Identity, seen: set<string>, a: seq<Record>)
    requires Ids(id, a) <= seen
    ensures Fresh(id, seen, a) == []
    decreases |a|
  {
    if a != [] {
      assert id(a[0]) in Ids(id, a);
      assert seen + {id(a[0])} == seen;
      FreshOfSeen(id, seen, a[1..]);
    }
  }

  /** Delivering a prefix twice adds nothing to the first occurrences. */
  lemma FreshIgnoresReplay(id: Identity, seen: set<string>, a: seq<Record>, b: seq<Record>)
    ensures Fresh(id, seen, a + (a + b)) == Fresh(id, seen, a + b)
    ensures Ids(id, a + (a + b)) == Ids(id, a + b)
  {
    var more := seen + Ids(id, a);
    FreshAppend(id, seen, a, a + b);
    FreshAppend(id, more, a, b);
    FreshOfSeen(id, more, a);
    assert more + Ids(id, a) == more;
    FreshAppend(id, seen, a, b);
  }

  lemma {:induction false} RecordsAppend(a: seq<Payload>, b: seq<Payload>)
    ensures RecordsOf(a + b) == if RecordsOf(a).None? then None else After(RecordsOf(a).value, RecordsOf(b))
    decreases |a|
  {
    hide Joined, After;
    if a == [] {
      assert a + b == b;
      AfterNothing(RecordsOf(b));
    } else {
      assert (a + b)[1..] == a[1..] + b;
      RecordsAppend(a[1..], b);
      var first := Joined(a[0].headers, a[0].details);
      RecordsStep(a);
      RecordsStep(a + b);
      if first.Some? && RecordsOf(a[1..]).Some? {
        AfterBoth(first.value, RecordsOf(a[1..]).value, RecordsOf(b));
      }
    }
  }

  lemma RecordsStep(payloads: seq<Payload>)
    requires payloads != []
    ensures
      var first, rest := Joined(payloads[0].headers, payloads[0].details), RecordsOf(payloads[1..]);
      && RecordsOf(payloads) == (if first.None? then None else After(first.value, rest))
      && (RecordsOf(payloads).None? <==> first.None? || rest.None?)
      && (RecordsOf(payloads).Some? ==> RecordsOf(payloads).value == first.value + rest.value)
  {
  }

  lemma {:induction false} LatestAppend(instant: Instants, current: Option<string>, a: seq<Payload>, b: seq<Payload>)
    ensures Latest(instant, current, a + b) == Latest(instant, Latest(instant, current, a), b)
    decreases |a|
  {
    hide LatestHeader;
    if a == [] {
      assert a + b == b;
    } else {
      assert (a + b)[1..] == a[1..] + b;
      LatestAppend(instant, LatestHeader(instant, current, a[0].headers), a[1..], b);
    }
  }

  /** No header of these is later than the stamp. */
  predicate NotAfter(instant: Instants, headers: seq<Header>, stamp: Option<string>) {
    forall h | h in headers && h.lastChanged.Some? ::
      stamp.Some? && instant(h.lastChanged.value) <= instant(stamp.value)
  }

  predicate NoneAfter(instant: Instants, payloads: seq<Payload>, stamp: Option<string>) {
    forall p | p in payloads :: NotAfter(instant, p.headers, stamp)
  }

  /** A stamp at least as late. */
  predicate AtLeast(instant: Instants, a: Option<string>, b: Option<string>) {
    b.Some? ==> a.Some? && instant(b.value) <= instant(a.value)
  }

  lemma {:induction false} LatestHeaderBounds(instant: Instants, current: Option<string>, headers: seq<Header>)
    ensures NotAfter(instant, headers, LatestHeader(instant, current, headers))
    ensures AtLeast(instant, LatestHeader(instant, current, headers), current)
    ensures NotAfter(instant, headers, current) ==> LatestHeader(instant, current, headers) == current
    decreases |headers|
  {
    if headers != [] {
      LatestHeaderBounds(instant, Later(instant, current, headers[0].lastChanged), headers[1..]);
      assert headers == [headers[0]] + headers[1..];
    }
  }

  lemma {:induction false} LatestBounds(instant: Instants, current: Option<string>, payloads: seq<Payload>)
    ensures NoneAfter(instant, payloads, Latest(instant, current, payloads))
    ensures AtLeast(instant, Latest(instant, current, payloads), current)
    ensures NoneAfter(instant, payloads, current) ==> Latest(instant, current, payloads) == current
    decreases |payloads|
  {
    hide LatestHeader;
    if payloads != [] {
      var next := LatestHeader(instant, current, payloads[0].headers);
      LatestHeaderBounds(instant, current, payloads[0].headers);
      LatestBounds(instant, next, payloads[1..]);
      assert payloads == [payloads[0]] + payloads[1..];
    }
  }

  /** Observing a prefix twice leaves the very same stamp text. */
  lemma LatestIgnoresReplay(instant: Instants, current: Option<string>, a: seq<Payload>, b: seq<Payload>)
    ensures Latest(instant, current, a + (a + b)) == Latest(instant, current, a + b)
  {
    LatestAppend(instant, current, a, a + b);
    LatestAppend(instant, Latest(instant, current, a), a, b);
    LatestBounds(instant, current, a);
    LatestBounds(instant, Latest(instant, current, a), a);
    LatestAppend(instant, current, a, b);
  }

  /**
   A replayed walk is worth the uninterrupted one: the same joinability, the same first
   occurrences, the same keys seen, the same latest stamp.
   */
  lemma ReplayIsHarmless(id: Identity, instant: Instants, seen: set<string>, current: Option<string>,
                         delivered: seq<Payload>, all: seq<Payload>)
    requires IsReplay(delivered, all)
    ensures RecordsOf(delivered).Some? <==> RecordsOf(all).Some?
    ensures RecordsOf(all).Some? ==>
              && Fresh(id, seen, RecordsOf(delivered).value) == Fresh(id, seen, RecordsOf(all).value)
              && Ids(id, RecordsOf(delivered).value) == Ids(id, RecordsOf(all).value)
    ensures Latest(instant, current, delivered) == Latest(instant, current, all)
  {
    hide RecordsOf, Latest, Fresh;
    if delivered != all {
      var k: nat :| k < |all| && delivered == all[..k] + all;
      var a, b := all[..k], all[k..];
      assert all == a + b;
      RecordsAppend(a, all);
      RecordsAppend(a, b);
      if RecordsOf(all).Some? {
        FreshIgnoresReplay(id, seen, RecordsOf(a).value, RecordsOf(b).value);
      }
      LatestIgnoresReplay(instant, current, a, b);
    }
  }

  /* ---------- a server that does not repeat its pages ---------- */

  /** The first record of this key. */
  function FirstOf(id: Identity, records: seq<Record>, key: string): Option<Record> {
    if records == [] then None
    else if id(records[0]) == key then Some(records[0])
    else FirstOf(id, records[1..], key)
  }

  lemma {:induction false} FreshHolds(id: Identity, seen: set<string>, records: seq<Record>, r: Record)
    ensures r in Fresh(id, seen, records) <==> id(r) !in seen && FirstOf(id, records, id(r)) == Some(r)
    decreases |records|
  {
    if records != [] {
      FreshHolds(id, seen + {id(records[0])}, records[1..], r);
    }
  }

  lemma {:induction false} FirstOfAppend(id: Identity, a: seq<Record>, b: seq<Record>, key: string)
    ensures FirstOf(id, a + b, key) == if FirstOf(id, a, key).Some? then FirstOf(id, a, key) else FirstOf(id, b, key)
    decreases |a|
  {
    if a == [] {
      assert a + b == b;
    } else {
      assert (a + b)[1..] == a[1..] + b;
      FirstOfAppend(id, a[1..], b, key);
    }
  }

  lemma {:induction false} FirstOfIsNew(id: Identity, records: seq<Record>, key: string)
    ensures FirstOf(id, records, key).Some? ==>
              FirstOf(id, records, key).value in records && id(FirstOf(id, records, key).value) == key
    ensures FirstOf(id, records, key).None? <==> key !in Ids(id, records)
    decreases |records|
  {
    if records != [] {
      FirstOfIsNew(id, records[1..], key);
      assert records == [records[0]] + records[1..];
    }
  }

  /**
   The pages before the restart delivered `lost`, those after it `again`, edited in between. A
   record the second walk delivers first under its key is dropped exactly when the run had the
   key before, or the lost pages held another version of the record - while the stamp kept is
   no earlier than any stamp of the second walk, so that the next run does not ask for it.
   */
  lemma UpdateIsLostIff(id: Identity, instant: Instants, seen: set<string>, mark: Option<string>,
                        lost: seq<Payload>, again: seq<Payload>, r: Record)
    requires RecordsOf(lost).Some? && RecordsOf(again).Some?
    requires FirstOf(id, RecordsOf(again).value, id(r)) == Some(r)
    ensures RecordsOf(lost + again).Some?
    ensures
      var before := FirstOf(id, RecordsOf(lost).value, id(r));
      r !in Fresh(id, seen, RecordsOf(lost + again).value) <==> id(r) in seen || (before.Some? && before != Some(r))
    ensures NoneAfter(instant, again, Latest(instant, mark, lost + again))
  {
    hide RecordsOf, Fresh, Latest, FirstOf;
    RecordsAppend(lost, again);
    FreshHolds(id, seen, RecordsOf(lost + again).value, r);
    FirstOfAppend(id, RecordsOf(lost).value, RecordsOf(again).value, id(r));
    LatestAppend(instant, mark, lost, again);
    LatestBounds(instant, Latest(instant, mark, lost), again);
  }

  /** One line, joined to a header that was edited between the walks: its new version is dropped, its stamp kept. */
  lemma EditedRecordIsLost()
    ensures
      var was, now := Header(Some("1"), Some("2026-01-01"), "open"), Header(Some("1"), Some("2026-01-02"), "paid");
      var line := Detail(Some("1"), Some(1), "line");
      var lost, again := Payload([was], [line], Some(true), Some(1)), Payload([now], [line], Some(false), None);
      var instant: Instants := stamp => if stamp == "2026-01-02" then 2 else 1;
      && RecordsOf([again]) == Some([Record(now, line)])
      && RecordsOf([lost] + [again]).Some?
      && Record(now, line) !in Fresh(r => "1/1", {}, RecordsOf([lost] + [again]).value)
      && Latest(instant, None, [lost] + [again]) == Some("2026-01-02")
  {
    var was, now := Header(Some("1"), Some("2026-01-01"), "open"), Header(Some("1"), Some("2026-01-02"), "paid");
    var line := Detail(Some("1"), Some(1), "line");
    var lost, again := Payload([was], [line], Some(true), Some(1)), Payload([now], [line], Some(false), None);
    var instant: Instants := stamp => if stamp == "2026-01-02" then 2 else 1;
    assert "paid"[0] == 'p' && "2026-01-02"[9] == '2';
    OneLine(was, line, lost);
    OneLine(now, line, again);
    UpdateIsLostIff(r => "1/1", instant, {}, None, [lost], [again], Record(now, line));
    assert [lost] + [again] == [lost, again] && [lost, again][1..] == [again];
  }

  lemma OneLine(header: Header, line: Detail, page: Payload)
    requires page.headers == [header] && page.details == [line]
    requires header.joinValue == line.joinValue && line.joinValue.Some? && line.lineNo.Some?
    ensures RecordsOf([page]) == Some([Record(header, line)])
  {
    assert [page][1..] == [] && page.details[1..] == [];
    assert FirstHeader([header], line.joinValue.value) == Some(header);
    assert [Record(header, line)] + [] == [Record(header, line)];
    assert Joined(page.headers, []) == Some([]);
    assert Joined(page.headers, page.details) == Some([Record(header, line)]);
  }
}
