/**
 The extraction loops: the restartable chunk walk, the page join, and the run over every
 customer and window - each proved against the uninterrupted reading.
 */
module AgilityRuns {
  import opened Outcomes
  import opened Agility
  import opened Staging

  /** How a walk or a run ended. */
  datatype Ending = Done | Expired | Refused

  /** Rejections of the session among the calls from..to of a run. */
  function Rejections(rejects: nat -> bool, from: nat, upto: nat): nat
    requires from <= upto
    decreases upto
  {
    if from == upto then 0 else Rejections(rejects, from, upto - 1) + if rejects(upto - 1) then 1 else 0
  }

  /** Every walk, begun at these calls and the last one ended by `upto`, met at most one rejection. */
  ghost predicate WalksCalm(rejects: nat -> bool, starts: seq<nat>, upto: nat) {
    forall k: nat | k < |starts| :: IsCalm(rejects, starts[k], EndOf(starts, k, upto))
  }

  /** The calls from..upto met at most one rejection. */
  ghost predicate IsCalm(rejects: nat -> bool, from: nat, upto: nat) {
    from <= upto && Rejections(rejects, from, upto) <= 1
  }

  /** Where walk k ends: where the next one begins, or at the last call. */
  function EndOf(starts: seq<nat>, k: nat, upto: nat): nat {
    if k + 1 < |starts| then starts[k + 1] else upto
  }

  /** The walk so far, when nothing more is known to be lost. */
  ghost predicate Continues(pages: Pages, got: seq<Payload>, pointer: int) {
    WalkFrom(pages, 0) == After(got, WalkFrom(pages, pointer))
  }

  /** Payloads delivered before a restart: a proper prefix of the walk, if the walk has an end. */
  ghost predicate IsLostPrefix(pages: Pages, lost: seq<Payload>) {
    var all := WalkFrom(pages, 0);
    all.Some? ==> |lost| < |all.value| && lost == all.value[..|lost|]
  }

  lemma WalkStep(pages: Pages, pointer: int)
    ensures pointer !in pages ==> WalkFrom(pages, pointer) == None
    ensures pointer in pages && pages[pointer].more.None? ==> WalkFrom(pages, pointer) == None
    ensures pointer in pages && pages[pointer].more == Some(false) ==>
              WalkFrom(pages, pointer) == Some([pages[pointer]])
    ensures pointer in pages && pages[pointer].more == Some(true) ==>
      var next := pages[pointer].next;
      WalkFrom(pages, pointer)
        == if next.None? || next.value <= pointer then None else After([pages[pointer]], WalkFrom(pages, next.value))
  {
  }

  lemma WalkNotEmpty(pages: Pages, pointer: int)
    ensures WalkFrom(pages, pointer).Some? ==> WalkFrom(pages, pointer).value != []
    ensures WalkFrom(pages, pointer).Some? ==> pointer in pages && WalkFrom(pages, pointer).value[0] == pages[pointer]
  {
  }

  class AgilityConnector {
    /** Which calls of the run the server rejects for an expired context. */
    const rejects: nat -> bool
    const instant: Instants
    const id: Identity
    var calls: nat
    var context: bool
    var maxIncrementalSeen: Option<string>

    constructor (rejects: nat -> bool, instant: Instants, id: Identity)
      ensures this.rejects == rejects && this.instant == instant && this.id == id
      ensures calls == 0 && !context && maxIncrementalSeen == None
    {
      this.rejects, this.instant, this.id := rejects, instant, id;
      calls, context, maxIncrementalSeen := 0, false, None;
    }

    method Login()
      modifies this`context
      ensures context
    {
      context := true;
    }

    /** One call: None when the context is rejected, else the page or its absence. */
    method Call(pages: Pages, pointer: int) returns (rejected: bool, answer: Option<Payload>)
      modifies this`context, this`calls
      ensures calls == old(calls) + 1 && rejected == rejects(old(calls))
      ensures !rejected ==> answer == if pointer in pages then Some(pages[pointer]) else None
    {
      if !context {
        Login();
      }
      rejected, answer := rejects(calls), None;
      calls := calls + 1;
      if !rejected && pointer in pages {
        answer := Some(pages[pointer]);
      }
    }

    /** Join the header and detail rowsets of one page on their join field, first header winning. */
    method JoinDocuments(payload: Payload) returns (records: Option<seq<Record>>)
      ensures records == Joined(payload.headers, payload.details)
    {
      var headers, details := payload.headers, payload.details;
      var byJoin: map<string, Header> := map[];
      for i := 0 to |headers|
        invariant forall v :: (v in byJoin <==> FirstHeader(headers[..i], v).Some?)
                    && (v in byJoin ==> FirstHeader(headers[..i], v) == Some(byJoin[v]))
      {
        FirstHeaderAppend(headers[..i], headers[i]);
        assert headers[..i + 1] == headers[..i] + [headers[i]];
        var v := headers[i].joinValue;
        if v.Some? && v.value !in byJoin {
          byJoin := byJoin[v.value := headers[i]];
        }
      }
      assert headers[..|headers|] == headers;
      var out: seq<Record> := [];
      assert details[0..] == details;
      AfterNothing(Joined(headers, details));
      for i := 0 to |details|
        invariant Joined(headers, details) == After(out, Joined(headers, details[i..]))
      {
        var d := details[i];
        assert details[i..][0] == d && details[i..][1..] == details[i + 1..];
        if d.joinValue.None? || d.joinValue.value !in byJoin {
          assert Joined(headers, details[i..]).None?;
          return None;
        }
        ghost var rest := Joined(headers, details[i + 1..]);
        if d.lineNo.Some? {
          AfterBoth(out, [Record(byJoin[d.joinValue.value], d)], rest);
          out := out + [Record(byJoin[d.joinValue.value], d)];
        } else {
          AfterNothing(rest);
        }
      }
      assert out + [] == out;
      return Some(out);
    }

    /** Track the latest change stamp over the headers of one page. */
    method ObserveIncremental(headers: seq<Header>)
      modifies this`maxIncrementalSeen
      ensures maxIncrementalSeen == LatestHeader(instant, old(maxIncrementalSeen), headers)
    {
      for i := 0 to |headers|
        invariant LatestHeader(instant, old(maxIncrementalSeen), headers)
               == LatestHeader(instant, maxIncrementalSeen, headers[i..])
      {
        assert headers[i..][0] == headers[i] && headers[i..][1..] == headers[i + 1..];
        var stamp := headers[i].lastChanged;
        if stamp.None? {
          continue;
        }
        if maxIncrementalSeen.None? || instant(stamp.value) > instant(maxIncrementalSeen.value) {
          maxIncrementalSeen := stamp;
        }
      }
    }

    /** Keep the records whose key this run has not delivered before. */
    method KeepFresh(records: seq<Record>, seen: set<string>) returns (news: seq<Record>, seen': set<string>)
      ensures news == Fresh(id, seen, records)
      ensures seen' == seen + Ids(id, records)
    {
      hide Fresh, Ids;
      news, seen' := [], seen;
      FreshNothing(id);
      assert records[0..] == records;
      for i := 0 to |records|
        invariant Fresh(id, seen, records) == news + Fresh(id, seen', records[i..])
        invariant seen' == seen + Ids(id, records[..i])
      {
        assert records[i..][0] == records[i] && records[i..][1..] == records[i + 1..];
        assert records[..i + 1] == records[..i] + [records[i]];
        var naturalId := id(records[i]);
        FreshStep(id, seen', records[i..]);
        IdsStep(id, records[..i], records[i]);
        if naturalId in seen' {
          assert seen' + {naturalId} == seen';
          continue;
        }
        assert (news + [records[i]]) + Fresh(id, seen' + {naturalId}, records[i + 1..])
            == news + ([records[i]] + Fresh(id, seen' + {naturalId}, records[i + 1..]));
        seen' := seen' + {naturalId};
        news := news + [records[i]];
      }
      FreshNothing(id);
      NoneFresh(id, seen');
      assert records[|records|..] == [] && news + [] == news;
      assert records[..|records|] == records;
    }

    /**
     One chunk walk, each page consumed as it comes: observed, joined, its records kept when their
     key is new, and only then looked at for the next pointer. It ends: pointers strictly advance
     over the pages the server holds, and the walk restarts at most once. `delivered` is what the
     server answered.
     */
    method WalkPages(pages: Pages, seen: set<string>)
      returns (records: seq<Record>, seen': set<string>, ending: Ending, ghost delivered: seq<Payload>)
      modifies this
      ensures old(calls) <= calls
      ensures ending.Expired? <==> Rejections(rejects, old(calls), calls) >= 2
      ensures !ending.Expired? ==>
        (ending.Done? <==> WalkFrom(pages, 0).Some? && RecordsOf(WalkFrom(pages, 0).value).Some?)
      ensures ending.Done? ==>
        var all := WalkFrom(pages, 0).value;
        && IsReplay(delivered, all)
        && records == Fresh(id, seen, RecordsOf(all).value) && seen' == seen + Ids(id, RecordsOf(all).value)
        && maxIncrementalSeen == Latest(instant, old(maxIncrementalSeen), all)
    {
      hide WalkFrom, Ahead, RecordsOf, Fresh, Ids, Latest, LatestHeader, Joined;
      records, seen', delivered := [], seen, [];
      var pointer, restarted := 0, false;
      ghost var lost: seq<Payload>, got: seq<Payload> := [], [];
      StartContinues(pages);
      NothingConsumed(id, instant, seen, maxIncrementalSeen);
      while true
        invariant old(calls) <= calls
        invariant Rejections(rejects, old(calls), calls) == if restarted then 1 else 0
        invariant delivered == lost + got && (restarted ==> IsLostPrefix(pages, lost)) && (!restarted ==> lost == [])
        invariant Continues(pages, got, pointer)
        invariant IsConsumed(id, instant, seen, old(maxIncrementalSeen), delivered, records, seen', maxIncrementalSeen)
        decreases !restarted, Ahead(pages, pointer) + if pointer in pages then {pointer} else {}
      {
        var rejected, answer := Call(pages, pointer);
        WalkStep(pages, pointer);
        if rejected {
          if restarted {
            ending := Expired;
            return;
          }
          WalkNotEmpty(pages, pointer);
          restarted, pointer, context := true, 0, false;
          Login();
          lost, got := got, [];
          assert lost + got == lost;
          StartContinues(pages);
          continue;
        }
        if answer.None? {
          ending := Refused;
          return;
        }
        var payload := answer.value;
        ObserveIncremental(payload.headers);
        var joined := JoinDocuments(payload);
        if joined.None? {
          UnjoinablePage(pages, got, pointer);
          ending := Refused;
          return;
        }
        var news: seq<Record>;
        ConsumeNext(id, instant, seen, old(maxIncrementalSeen), delivered, payload, records, seen');
        news, seen' := KeepFresh(joined.value, seen');
        records := records + news;
        delivered := delivered + [payload];
        assert delivered == lost + (got + [payload]);
        if payload.more.None? {
          ending := Refused;
          return;
        }
        if !payload.more.value {
          ghost var all := WalkFrom(pages, 0).value;
          assert all == got + [payload];
          assert lost == [] ==> delivered == all;
          assert restarted ==> delivered == all[..|lost|] + all;
          ReplayIsHarmless(id, instant, seen, old(maxIncrementalSeen), delivered, all);
          ending := Done;
          return;
        }
        if payload.next.None? || payload.next.value <= pointer {
          ending := Refused;
          return;
        }
        AheadShrinks(pages, pointer, payload.next.value);
        ghost var before := got;
        got := got + [payload];
        MoveContinues(pages, before, pointer, payload);
        pointer := payload.next.value;
      }
    }

    /**
     A run over one request body per customer and window. Whatever sessions are lost, as long as
     no walk loses two, it ends like the run that loses none: the same records in the same order
     and the same latest stamp. `starts` holds the number of the first call of each walk.
     */
    method Extract(requests: seq<Pages>) returns (records: seq<Record>, ending: Ending, ghost starts: seq<nat>)
      modifies this
      ensures !ending.Expired? ==> WalksCalm(rejects, starts, calls)
      ensures ending.Expired? ==>
        && starts != [] && var last := starts[|starts| - 1];
           WalksCalm(rejects, starts[..|starts| - 1], last) && last <= calls && Rejections(rejects, last, calls) >= 2
      ensures !ending.Expired? ==> (ending.Done? <==> AllRecords(requests).Some?)
      ensures ending.Done? ==> records == Fresh(id, {}, AllRecords(requests).value)
      ensures ending.Done? ==> maxIncrementalSeen == AllLatest(instant, old(maxIncrementalSeen), requests)
    {
      hide WalkFrom, RecordsOf, Latest, Fresh, Ids, Rejections, WalksCalm;
      CalmStart(rejects, calls);
      records, ending, starts := [], Done, [];
      var seen: set<string> := {};
      ghost var past: seq<Record> := [];
      FreshNothing(id);
      assert requests[0..] == requests;
      AfterNothing(AllRecords(requests));
      for i := 0 to |requests|
        invariant ending.Done? && WalksCalm(rejects, starts, calls)
        invariant AllRecords(requests) == After(past, AllRecords(requests[i..]))
        invariant records == Fresh(id, {}, past) && seen == Ids(id, past)
        invariant AllLatest(instant, old(maxIncrementalSeen), requests)
               == AllLatest(instant, maxIncrementalSeen, requests[i..])
      {
        assert requests[i..][0] == requests[i] && requests[i..][1..] == requests[i + 1..];
        ghost var before, mark := starts, calls;
        starts := starts + [mark];
        assert starts[..|starts| - 1] == before;
        var news, seen';
        ghost var delivered;
        news, seen', ending, delivered := WalkPages(requests[i], seen);
        if !ending.Expired? {
          CalmNext(rejects, before, mark, calls);
        }
        if !ending.Done? {
          return;
        }
        ghost var whole := RecordsOf(WalkFrom(requests[i], 0).value).value;
        AfterBoth(past, whole, AllRecords(requests[i + 1..]));
        NextFresh(id, past, whole);
        records, seen, past := records + news, seen', past + whole;
      }
      assert past + [] == past;
    }
  }

  /* ---------- consuming pages ---------- */

  /** What a run has after consuming these pages: their first occurrences, their keys, their latest stamp. */
  ghost predicate IsConsumed(id: Identity, instant: Instants, seen: set<string>, mark: Option<string>,
                             delivered: seq<Payload>, records: seq<Record>, seen': set<string>, mark': Option<string>) {
    && RecordsOf(delivered).Some?
    && records == Fresh(id, seen, RecordsOf(delivered).value)
    && seen' == seen + Ids(id, RecordsOf(delivered).value)
    && mark' == Latest(instant, mark, delivered)
  }

  lemma NothingConsumed(id: Identity, instant: Instants, seen: set<string>, mark: Option<string>)
    ensures IsConsumed(id, instant, seen, mark, [], [], seen, mark)
  {
    FreshNothing(id);
    NoneFresh(id, seen);
    assert seen + {} == seen;
  }

  /** One more page, joined and observed. */
  lemma ConsumeNext(id: Identity, instant: Instants, seen: set<string>, mark: Option<string>,
                    delivered: seq<Payload>, payload: Payload, records: seq<Record>, seen': set<string>)
    requires IsConsumed(id, instant, seen, mark, delivered, records, seen', Latest(instant, mark, delivered))
    requires Joined(payload.headers, payload.details).Some?
    ensures
      var joined := Joined(payload.headers, payload.details).value;
      IsConsumed(id, instant, seen, mark, delivered + [payload],
                 records + Fresh(id, seen', joined), seen' + Ids(id, joined),
                 LatestHeader(instant, Latest(instant, mark, delivered), payload.headers))
  {
    hide RecordsOf, Fresh, Ids, Latest, LatestHeader, Joined;
    var joined, past := Joined(payload.headers, payload.details).value, RecordsOf(delivered).value;
    OnePage(instant, Latest(instant, mark, delivered), payload);
    RecordsAppend(delivered, [payload]);
    LatestAppend(instant, mark, delivered, [payload]);
    FreshAppend(id, seen, past, joined);
    IdsAppend(id, past, joined);
    assert seen + (Ids(id, past) + Ids(id, joined)) == (seen + Ids(id, past)) + Ids(id, joined);
  }

  lemma OnePage(instant: Instants, mark: Option<string>, payload: Payload)
    ensures RecordsOf([payload]) == Joined(payload.headers, payload.details)
    ensures Latest(instant, mark, [payload]) == LatestHeader(instant, mark, payload.headers)
  {
    hide Joined, LatestHeader;
    assert [payload][1..] == [];
    if Joined(payload.headers, payload.details).Some? {
      assert Joined(payload.headers, payload.details).value + [] == Joined(payload.headers, payload.details).value;
    }
  }

  lemma IdsAppend(id: Identity, a: seq<Record>, b: seq<Record>)
    ensures Ids(id, a + b) == Ids(id, a) + Ids(id, b)
  {
    forall x | x in Ids(id, a) + Ids(id, b) ensures x in Ids(id, a + b) {
      if x in Ids(id, a) {
        var r :| r in a && id(r) == x;
        assert r in a + b;
      } else {
        var r :| r in b && id(r) == x;
        assert r in a + b;
      }
    }
  }

  /** A walk through a page that does not join has no records. */
  lemma UnjoinablePage(pages: Pages, got: seq<Payload>, pointer: int)
    requires Continues(pages, got, pointer) && pointer in pages
    requires Joined(pages[pointer].headers, pages[pointer].details).None?
    ensures WalkFrom(pages, 0).Some? ==> RecordsOf(WalkFrom(pages, 0).value).None?
  {
    hide WalkFrom, RecordsOf, Joined;
    WalkNotEmpty(pages, pointer);
    if WalkFrom(pages, 0).Some? {
      var rest := WalkFrom(pages, pointer).value;
      assert rest[0] == pages[pointer];
      RecordsStep(rest);
      RecordsAppend(got, rest);
    }
  }

  lemma NextFresh(id: Identity, past: seq<Record>, more: seq<Record>)
    ensures Fresh(id, {}, past + more) == Fresh(id, {}, past) + Fresh(id, Ids(id, past), more)
    ensures Ids(id, past + more) == Ids(id, past) + Ids(id, more)
  {
    FreshAppend(id, {}, past, more);
    assert {} + Ids(id, past) == Ids(id, past);
  }

  lemma FreshStep(id: Identity, seen: set<string>, records: seq<Record>)
    requires records != []
    ensures
      var rest := Fresh(id, seen + {id(records[0])}, records[1..]);
      Fresh(id, seen, records) == if id(records[0]) in seen then rest else [records[0]] + rest
  {
  }

  lemma IdsStep(id: Identity, records: seq<Record>, r: Record)
    ensures Ids(id, records + [r]) == Ids(id, records) + {id(r)}
  {
    assert r in records + [r];
  }

  lemma NoneFresh(id: Identity, seen: set<string>)
    ensures Fresh(id, seen, []) == []
  {
  }

  lemma FreshNothing(id: Identity)
    ensures Fresh(id, {}, []) == [] && Ids(id, []) == {}
  {
  }

  lemma CalmStart(rejects: nat -> bool, upto: nat)
    ensures WalksCalm(rejects, [], upto)
  {
  }

  lemma CalmNext(rejects: nat -> bool, starts: seq<nat>, mark: nat, upto: nat)
    requires WalksCalm(rejects, starts, mark) && IsCalm(rejects, mark, upto)
    ensures WalksCalm(rejects, starts + [mark], upto)
  {
    hide IsCalm;
    var more := starts + [mark];
    forall k: nat | k < |more| ensures IsCalm(rejects, more[k], EndOf(more, k, upto)) {
      EndOfNext(starts, mark, k, upto);
    }
  }

  lemma EndOfNext(starts: seq<nat>, mark: nat, k: nat, upto: nat)
    requires k <= |starts|
    ensures k < |starts| ==>
              (starts + [mark])[k] == starts[k] && EndOf(starts + [mark], k, upto) == EndOf(starts, k, mark)
    ensures k == |starts| ==> (starts + [mark])[k] == mark && EndOf(starts + [mark], k, upto) == upto
  {
  }

  lemma StartContinues(pages: Pages)
    ensures Continues(pages, [], 0)
  {
    hide WalkFrom;
    AfterNothing(WalkFrom(pages, 0));
  }

  lemma MoveContinues(pages: Pages, got: seq<Payload>, pointer: int, payload: Payload)
    requires Continues(pages, got, pointer) && pointer in pages && pages[pointer] == payload
    requires payload.more == Some(true) && payload.next.Some? && payload.next.value > pointer
    ensures Continues(pages, got + [payload], payload.next.value)
  {
    hide WalkFrom, After;
    WalkStep(pages, pointer);
    AfterBoth(got, [payload], WalkFrom(pages, payload.next.value));
  }

  lemma AheadShrinks(pages: Pages, pointer: int, next: int)
    requires pointer in pages && pointer < next
    ensures Ahead(pages, next) + (if next in pages then {next} else {}) < Ahead(pages, pointer) + {pointer}
  {
    var a, b := Ahead(pages, next) + (if next in pages then {next} else {}), Ahead(pages, pointer) + {pointer};
    assert a <= b && pointer in b && pointer !in a;
  }

  lemma {:induction false} FirstHeaderAppend(headers: seq<Header>, h: Header)
    ensures forall v :: FirstHeader(headers + [h], v)
              == (if FirstHeader(headers, v).Some? then FirstHeader(headers, v)
                  else if h.joinValue == Some(v) then Some(h) else None)
    decreases |headers|
  {
    if headers == [] {
      assert headers + [h] == [h] && [h][1..] == [];
    } else {
      assert (headers + [h])[1..] == headers[1..] + [h];
      FirstHeaderAppend(headers[1..], h);
    }
  }

  /* ---------- date windows ---------- */

  datatype Window = Window(start: int, end: int)

  /** The windows cover from..to day by day, in order, without gap or overlap, none longer than `days`. */
  predicate Tiles(windows: seq<Window>, from: int, to: int, days: nat) {
    if from > to then windows == []
    else
      && windows != [] && windows[0].start == from && windows[|windows| - 1].end == to
      && (forall k | 0 <= k < |windows| :: windows[k].start <= windows[k].end < windows[k].start + days)
      && (forall k | 0 < k < |windows| :: windows[k].start == windows[k - 1].end + 1)
  }

  /**
   The windows of one request, days counted as integers; none for an entity without them. A
   backfill slices go-live..today, an incremental run takes the trailing days again - today and
   as many days before it as a window has, one more than a backfill window holds.
   */
  method RequestWindows(windowed: bool, mode: Mode, goLive: int, today: int, windowDays: nat)
    returns (windows: seq<Option<Window>>)
    requires windowDays > 0
    ensures !windowed ==> windows == [None]
    ensures windowed && mode.Incremental? ==> windows == [Some(Window(today - windowDays, today))]
    ensures windowed && mode.Backfill? ==>
      && (forall k | 0 <= k < |windows| :: windows[k].Some?)
      && Tiles(Unwrapped(windows), goLive, today, windowDays)
  {
    if !windowed {
      return [None];
    }
    if mode.Incremental? {
      return [Some(Window(today - windowDays, today))];
    }
    windows := [];
    ghost var tiles: seq<Window> := [];
    var span := windowDays - 1;
    var cursor := goLive;
    while cursor <= today
      invariant |tiles| == |windows| && forall k | 0 <= k < |windows| :: windows[k] == Some(tiles[k])
      invariant Tiles(tiles, goLive, cursor - 1, windowDays)
      invariant goLive <= cursor && (cursor <= today + 1 || windows == [])
    {
      var end := if cursor + span < today then cursor + span else today;
      windows := windows + [Some(Window(cursor, end))];
      tiles := tiles + [Window(cursor, end)];
      cursor := end + 1;
    }
    assert Unwrapped(windows) == tiles;
  }

  function Unwrapped(windows: seq<Option<Window>>): (r: seq<Window>)
    ensures |r| == |windows|
    ensures forall k | 0 <= k < |windows| && windows[k].Some? :: r[k] == windows[k].value
  {
    seq(|windows|, k requires 0 <= k < |windows| => windows[k].UnwrapOr(Window(0, 0)))
  }

  /** A tiling contains each day of its range in exactly one window. */
  lemma {:induction false} TilesCoverOnce(windows: seq<Window>, from: int, to: int, days: nat, day: int)
    requires Tiles(windows, from, to, days)
    ensures from <= day <= to <==> exists k :: 0 <= k < |windows| && windows[k].start <= day <= windows[k].end
    ensures forall i, j | 0 <= i < j < |windows| :: windows[i].end < windows[j].start
    decreases |windows|
  {
    if from <= to {
      var last := |windows| - 1;
      var front := windows[..last];
      if last == 0 {
        assert windows[0].start <= day <= windows[0].end <==> from <= day <= to;
      } else {
        FrontTiles(windows, from, to, days);
        var mid := windows[last - 1].end;
        TilesCoverOnce(front, from, mid, days, day);
        if from <= day <= mid {
          var k :| 0 <= k < |front| && front[k].start <= day <= front[k].end;
          assert windows[k] == front[k];
        } else if day <= to && day >= from {
          assert windows[last].start <= day <= windows[last].end;
        }
        forall k | 0 <= k < |windows| && windows[k].start <= day <= windows[k].end
          ensures from <= day <= to
        {
          if k < last {
            assert front[k] == windows[k];
          }
        }
        forall i, j | 0 <= i < j < |windows|
          ensures windows[i].end < windows[j].start
        {
          if j < last {
            assert front[i] == windows[i] && front[j] == windows[j];
          } else if i < last - 1 {
            assert front[i] == windows[i] && front[last - 1] == windows[last - 1];
          }
        }
      }
    }
  }

  lemma FrontTiles(windows: seq<Window>, from: int, to: int, days: nat)
    requires Tiles(windows, from, to, days) && |windows| > 1
    ensures Tiles(windows[..|windows| - 1], from, windows[|windows| - 2].end, days)
    ensures from <= windows[|windows| - 2].end
  {
    StartsAfter(windows, from, to, days, |windows| - 2);
  }

  lemma {:induction false} StartsAfter(windows: seq<Window>, from: int, to: int, days: nat, k: nat)
    requires Tiles(windows, from, to, days) && k < |windows|
    ensures from <= windows[k].start <= windows[k].end
    decreases k
  {
    if k > 0 {
      StartsAfter(windows, from, to, days, k - 1);
    }
  }
}
