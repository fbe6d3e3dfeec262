/**
 What an extraction delivers, spelled out: which pages a walk visits, which header each line is
 joined to and when a page is refused, and which stamp is kept.
 */
module AgilityLaws {
  import opened Outcomes
  import opened Agility

  /* ---------- walks ---------- */

  /** The pointers of a walk that ends: each page names the next, further one, and the last says it is the last. */
  predicate IsChain(pages: Pages, pointers: seq<int>) {
    && pointers != []
    && (forall k | 0 <= k < |pointers| :: pointers[k] in pages)
    && (forall k | 0 <= k < |pointers| - 1 ::
          && pages[pointers[k]].more == Some(true) && pages[pointers[k]].next == Some(pointers[k + 1])
          && pointers[k] < pointers[k + 1])
    && pages[pointers[|pointers| - 1]].more == Some(false)
  }

  /** The pages at these pointers, in order. */
  predicate AreAt(pages: Pages, pointers: seq<int>, payloads: seq<Payload>) {
    && |payloads| == |pointers|
    && forall k | 0 <= k < |pointers| :: pointers[k] in pages && payloads[k] == pages[pointers[k]]
  }

  /** A walk delivers exactly the pages of a chain that starts at its pointer; without one it is refused. */
  lemma WalkIff(pages: Pages, pointer: int, payloads: seq<Payload>)
    ensures WalkFrom(pages, pointer) == Some(payloads)
       <==> exists pointers :: IsChain(pages, pointers) && pointers[0] == pointer && AreAt(pages, pointers, payloads)
  {
    if WalkFrom(pages, pointer) == Some(payloads) {
      var pointers := WalkHasChain(pages, pointer);
    }
    if pointers :| IsChain(pages, pointers) && pointers[0] == pointer && AreAt(pages, pointers, payloads) {
      ChainIsWalked(pages, pointers, payloads);
    }
  }

  lemma {:induction false} WalkHasChain(pages: Pages, pointer: int) returns (pointers: seq<int>)
    requires WalkFrom(pages, pointer).Some?
    ensures IsChain(pages, pointers) && pointers[0] == pointer
    ensures AreAt(pages, pointers, WalkFrom(pages, pointer).value)
    decreases Ahead(pages, pointer)
  {
    var payload := pages[pointer];
    if payload.more == Some(false) {
      pointers := [pointer];
    } else {
      var next := payload.next.value;
      assert next in Ahead(pages, pointer) && next !in Ahead(pages, next);
      assert Ahead(pages, next) <= Ahead(pages, pointer);
      var rest := WalkHasChain(pages, next);
      pointers := [pointer] + rest;
      assert WalkFrom(pages, pointer).value == [payload] + WalkFrom(pages, next).value;
    }
  }

  lemma {:induction false} ChainIsWalked(pages: Pages, pointers: seq<int>, payloads: seq<Payload>)
    requires IsChain(pages, pointers) && AreAt(pages, pointers, payloads)
    ensures WalkFrom(pages, pointers[0]) == Some(payloads)
    decreases |pointers|
  {
    if |pointers| == 1 {
      assert payloads == [pages[pointers[0]]];
    } else {
      var rest := pointers[1..];
      assert forall k | 0 <= k < |rest| :: rest[k] == pointers[k + 1];
      assert pages[pointers[0]].next == Some(pointers[0 + 1]);
      ChainIsWalked(pages, rest, payloads[1..]);
      assert payloads == [pages[pointers[0]]] + payloads[1..];
    }
  }

  /* ---------- joins ---------- */

  /** This is the first header that bears the line's join value. */
  predicate BearsFirst(headers: seq<Header>, line: Detail, header: Header) {
    && line.joinValue.Some?
    && exists i | 0 <= i < |headers| ::
         && headers[i] == header && header.joinValue == line.joinValue
         && forall j | 0 <= j < i :: headers[j].joinValue != line.joinValue
  }

  /** The line has a join value, and some header bears it. */
  predicate HasHeader(headers: seq<Header>, line: Detail) {
    line.joinValue.Some? && exists i | 0 <= i < |headers| :: headers[i].joinValue == line.joinValue
  }

  lemma {:induction false} FirstHeaderIff(headers: seq<Header>, line: Detail)
    requires line.joinValue.Some?
    ensures FirstHeader(headers, line.joinValue.value).Some? <==> HasHeader(headers, line)
    ensures forall h :: FirstHeader(headers, line.joinValue.value) == Some(h) <==> BearsFirst(headers, line, h)
  {
    if headers != [] {
      var rest := headers[1..];
      FirstHeaderIff(rest, line);
      assert forall i | 0 <= i < |rest| :: rest[i] == headers[i + 1];
      if headers[0].joinValue != line.joinValue {
        forall h ensures BearsFirst(headers, line, h) <==> BearsFirst(rest, line, h) {
          if BearsFirst(headers, line, h) {
            var i :| && 0 <= i < |headers| && headers[i] == h && h.joinValue == line.joinValue
                     && forall j | 0 <= j < i :: headers[j].joinValue != line.joinValue;
            assert rest[i - 1] == h;
          }
          if BearsFirst(rest, line, h) {
            var i :| && 0 <= i < |rest| && rest[i] == h && h.joinValue == line.joinValue
                     && forall j | 0 <= j < i :: rest[j].joinValue != line.joinValue;
            assert headers[i + 1] == h;
          }
        }
        assert HasHeader(headers, line) <==> HasHeader(rest, line);
      }
    }
  }

  /** The records of the lines that have a number, in order, each with the first header that bears its join value. */
  predicate AreJoined(headers: seq<Header>, details: seq<Detail>, records: seq<Record>)
    decreases |details|
  {
    if details == [] then records == []
    else if details[0].lineNo.None? then AreJoined(headers, details[1..], records)
    else
      && records != [] && records[0].detail == details[0] && BearsFirst(headers, details[0], records[0].header)
      && AreJoined(headers, details[1..], records[1..])
  }

  /**
   A page is refused exactly when some line has no join value or one that no header bears; else it
   yields the joined lines. A line without a number yields nothing, but it too needs its header.
   */
  lemma {:induction false} JoinIff(headers: seq<Header>, details: seq<Detail>)
    ensures Joined(headers, details).None? <==> exists k | 0 <= k < |details| :: !HasHeader(headers, details[k])
    ensures Joined(headers, details).Some? ==> AreJoined(headers, details, Joined(headers, details).value)
    decreases |details|
  {
    hide HasHeader, BearsFirst, FirstHeader;
    if details != [] {
      var rest := details[1..];
      JoinIff(headers, rest);
      assert forall k | 0 <= k < |rest| :: rest[k] == details[k + 1];
      assert (exists k | 0 <= k < |details| :: !HasHeader(headers, details[k]))
        <==> !HasHeader(headers, details[0]) || exists k | 0 <= k < |rest| :: !HasHeader(headers, rest[k]);
      NeedsValue(headers, details[0]);
      if details[0].joinValue.Some? {
        FirstHeaderIff(headers, details[0]);
      }
      if Joined(headers, details).Some? && details[0].lineNo.Some? {
        assert Joined(headers, details).value[1..] == Joined(headers, rest).value;
      } else if Joined(headers, details).Some? {
        assert [] + Joined(headers, rest).value == Joined(headers, rest).value;
      }
    }
  }

  lemma NeedsValue(headers: seq<Header>, line: Detail)
    ensures line.joinValue.None? ==> !HasHeader(headers, line)
  {
  }

  /* ---------- whole runs ---------- */

  /** The records of the pages, page after page. */
  predicate ArePaged(payloads: seq<Payload>, records: seq<Record>)
    decreases |payloads|
  {
    if payloads == [] then records == []
    else exists n | 0 <= n <= |records| ::
      AreJoined(payloads[0].headers, payloads[0].details, records[..n]) && ArePaged(payloads[1..], records[n..])
  }

  lemma {:induction false} RecordsArePaged(payloads: seq<Payload>)
    ensures RecordsOf(payloads).None?
       <==> exists k | 0 <= k < |payloads| :: Joined(payloads[k].headers, payloads[k].details).None?
    ensures RecordsOf(payloads).Some? ==> ArePaged(payloads, RecordsOf(payloads).value)
  {
    hide Joined, AreJoined;
    if payloads != [] {
      var rest := payloads[1..];
      RecordsArePaged(rest);
      assert forall k | 0 <= k < |rest| :: rest[k] == payloads[k + 1];
      RecordsStep(payloads);
      if RecordsOf(payloads).Some? {
        var first, all := Joined(payloads[0].headers, payloads[0].details).value, RecordsOf(payloads).value;
        JoinIff(payloads[0].headers, payloads[0].details);
        assert all[..|first|] == first && all[|first|..] == RecordsOf(rest).value;
      }
    }
  }

  /** The records of the requests, request after request, each walked from pointer 0. */
  ghost predicate AreRequested(requests: seq<Pages>, records: seq<Record>)
    decreases |requests|
  {
    if requests == [] then records == []
    else exists payloads, first, rest ::
      && WalkFrom(requests[0], 0) == Some(payloads) && RecordsOf(payloads) == Some(first)
      && records == first + rest && AreRequested(requests[1..], rest)
  }

  /** A run without lost sessions is refused exactly when a walk or a page of one is. */
  lemma {:induction false} RunIff(requests: seq<Pages>)
    ensures AllRecords(requests).None?
       <==> exists k | 0 <= k < |requests| ::
              WalkFrom(requests[k], 0).None? || RecordsOf(WalkFrom(requests[k], 0).value).None?
    ensures AllRecords(requests).Some? ==> AreRequested(requests, AllRecords(requests).value)
  {
    hide WalkFrom, RecordsOf;
    if requests != [] {
      var rest := requests[1..];
      RunIff(rest);
      assert forall k | 0 <= k < |rest| :: rest[k] == requests[k + 1];
      var walk := WalkFrom(requests[0], 0);
      if AllRecords(requests).Some? {
        assert AreRequested(rest, AllRecords(rest).value);
        assert AllRecords(requests).value == RecordsOf(walk.value).value + AllRecords(rest).value;
      }
    }
  }

  /* ---------- stamps ---------- */

  /** The stamps of the headers, in order. */
  function StampsOf(headers: seq<Header>): seq<string> {
    if headers == [] then []
    else (if headers[0].lastChanged.Some? then [headers[0].lastChanged.value] else []) + StampsOf(headers[1..])
  }

  function AllStamps(payloads: seq<Payload>): seq<string> {
    if payloads == [] then [] else StampsOf(payloads[0].headers) + AllStamps(payloads[1..])
  }

  function Started(current: Option<string>): seq<string> {
    if current.Some? then [current.value] else []
  }

  /** The latest of the stamps, the first of them where several are as late; none of none. */
  ghost predicate IsLatest(instant: Instants, stamps: seq<string>, latest: Option<string>) {
    if latest.None? then stamps == []
    else exists k :: IsLatestAt(instant, stamps, k) && stamps[k] == latest.value
  }

  predicate IsLatestAt(instant: Instants, stamps: seq<string>, k: int) {
    && 0 <= k < |stamps|
    && (forall j | 0 <= j < |stamps| :: instant(stamps[j]) <= instant(stamps[k]))
    && (forall j | 0 <= j < k :: instant(stamps[j]) < instant(stamps[k]))
  }

  lemma LaterIs(instant: Instants, before: seq<string>, current: Option<string>, stamp: Option<string>)
    requires IsLatest(instant, before, current)
    ensures IsLatest(instant, before + Started(stamp), Later(instant, current, stamp))
  {
    var all, next := before + Started(stamp), Later(instant, current, stamp);
    if stamp.None? {
      assert all == before;
    } else if current.None? {
      assert all == [stamp.value] && all[0] == stamp.value;
      assert IsLatestAt(instant, all, 0);
    } else {
      var k :| IsLatestAt(instant, before, k) && before[k] == current.value;
      var at := if instant(stamp.value) > instant(current.value) then |before| else k;
      assert all[at] == next.value;
      assert forall j | 0 <= j < |before| :: all[j] == before[j];
      assert IsLatestAt(instant, all, at);
    }
  }

  lemma StampsUnfold(headers: seq<Header>, before: seq<string>)
    requires headers != []
    ensures before + StampsOf(headers) == (before + Started(headers[0].lastChanged)) + StampsOf(headers[1..])
  {
  }

  lemma {:induction false} LatestHeaderIs(instant: Instants, before: seq<string>, current: Option<string>,
                                          headers: seq<Header>)
    requires IsLatest(instant, before, current)
    ensures IsLatest(instant, before + StampsOf(headers), LatestHeader(instant, current, headers))
    decreases |headers|
  {
    hide IsLatest, Later, Started;
    if headers == [] {
      assert before + [] == before;
    } else {
      var stamp := headers[0].lastChanged;
      LaterIs(instant, before, current, stamp);
      LatestHeaderIs(instant, before + Started(stamp), Later(instant, current, stamp), headers[1..]);
      StampsUnfold(headers, before);
    }
  }

  /** The stamp kept after some pages is the latest among the one before and theirs, the first on a tie. */
  lemma {:induction false} LatestIs(instant: Instants, before: seq<string>, current: Option<string>,
                                    payloads: seq<Payload>)
    requires IsLatest(instant, before, current)
    ensures IsLatest(instant, before + AllStamps(payloads), Latest(instant, current, payloads))
    decreases |payloads|
  {
    hide IsLatest, LatestHeader;
    if payloads == [] {
      assert before + [] == before;
    } else {
      var headers := payloads[0].headers;
      LatestHeaderIs(instant, before, current, headers);
      LatestIs(instant, before + StampsOf(headers), LatestHeader(instant, current, headers), payloads[1..]);
      assert before + AllStamps(payloads) == (before + StampsOf(headers)) + AllStamps(payloads[1..]);
    }
  }

  /** The stamp kept after a whole run takes in every walk of it. */
  lemma {:induction false} RunLatest(instant: Instants, current: Option<string>, requests: seq<Pages>)
    requires forall k | 0 <= k < |requests| :: WalkFrom(requests[k], 0).Some?
    ensures AllLatest(instant, current, requests) == Latest(instant, current, AllPages(requests))
    decreases |requests|
  {
    hide WalkFrom, Latest;
    if requests == [] {
      assert Latest(instant, current, []) == current by { LatestBounds(instant, current, []); }
    } else {
      var first := WalkFrom(requests[0], 0).value;
      assert forall k | 0 <= k < |requests[1..]| :: requests[1..][k] == requests[k + 1];
      LatestAppend(instant, current, first, AllPages(requests[1..]));
      RunLatest(instant, Latest(instant, current, first), requests[1..]);
    }
  }

  /** The pages of all walks, one walk after the other. */
  function AllPages(requests: seq<Pages>): seq<Payload> {
    if requests == [] then []
    else (if WalkFrom(requests[0], 0).Some? then WalkFrom(requests[0], 0).value else []) + AllPages(requests[1..])
  }
}
