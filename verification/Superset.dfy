/**
 Create-or-update by name against a remote catalogue: a find by exact name, then a create when
 nothing was found. And the names a promoted question gives its objects.
 */
module Superset {
  import opened Outcomes

  /** A remote object: its name - a dataset's table name, a chart's slice name - and what it carries. */
  datatype Item<+T> = Item(id: int, name: string, body: T)

  /** What a dataset reads, and what a chart draws. */
  datatype Source = Source(database: int, schema: string, sql: string)
  datatype Drawing = Drawing(datasource: int, payload: string)

  /** Every object of that name, oldest first. */
  function Named<T>(items: seq<Item<T>>, name: string): seq<Item<T>> {
    if items == [] then []
    else
      var last := items[|items| - 1];
      Named(items[..|items| - 1], name) + if last.name == name then [last] else []
  }

  lemma NamedNext<T>(items: seq<Item<T>>, x: Item<T>, name: string)
    ensures Named(items + [x], name) == Named(items, name) + if x.name == name then [x] else []
  {
    assert (items + [x])[..|items|] == items;
  }

  /** The first object of a name: it bears the name, and none before it does. */
  ghost predicate IsFirst<T>(items: seq<Item<T>>, name: string, k: int) {
    0 <= k < |items| && items[k].name == name && forall j | 0 <= j < k :: items[j].name != name
  }

  /** What is named is what bears the name, the first of it in front. */
  lemma {:induction false} NamedIs<T>(items: seq<Item<T>>, name: string)
    ensures Named(items, name) == [] <==> forall j | 0 <= j < |items| :: items[j].name != name
    ensures forall k | IsFirst(items, name, k) :: Named(items, name) != [] && Named(items, name)[0] == items[k]
    decreases |items|
  {
    if items != [] {
      var front := items[..|items| - 1];
      NamedIs(front, name);
      forall k | IsFirst(items, name, k) ensures Named(items, name) != [] && Named(items, name)[0] == items[k] {
        if k < |front| {
          assert IsFirst(front, name, k);
        }
      }
    }
  }

  /** What a find-then-create of one name leaves behind: an object that is found is not touched. */
  function Ensured<T>(items: seq<Item<T>>, x: Item<T>): seq<Item<T>> {
    if Named(items, x.name) == [] then items + [x] else items
  }

  /** The body of the first object of that name, replaced. */
  function Redrawn<T>(items: seq<Item<T>>, name: string, body: T): (r: seq<Item<T>>)
    ensures |r| == |items|
  {
    if items == [] then []
    else if items[0].name == name then [items[0].(body := body)] + items[1..]
    else [items[0]] + Redrawn(items[1..], name, body)
  }

  /**
   Ensuring a name twice keeps one object, with the id and the body the first call gave it,
   whatever happened to other names in between.
   */
  lemma EnsuredTwice<T>(items: seq<Item<T>>, x: Item<T>, others: seq<Item<T>>, y: Item<T>)
    requires x.name == y.name && forall k | 0 <= k < |others| :: others[k].name != x.name
    ensures var once := Ensured(items, x);
      && Named(once, x.name) != []
      && Ensured(once + others, y) == once + others
      && Named(once + others, x.name) == Named(once, x.name)
      && (Named(items, x.name) == [] ==> Named(once, x.name) == [x])
  {
    hide Named;
    NamedNext(items, x, x.name);
    OthersDoNotCount(Ensured(items, x), others, x.name);
  }

  lemma {:induction false} OthersDoNotCount<T>(items: seq<Item<T>>, others: seq<Item<T>>, name: string)
    requires forall k | 0 <= k < |others| :: others[k].name != name
    ensures Named(items + others, name) == Named(items, name)
    decreases |others|
  {
    hide Named;
    if others == [] {
      assert items + others == items;
    } else {
      var front := others[..|others| - 1];
      OthersDoNotCount(items, front, name);
      NamedNext(items + front, others[|others| - 1], name);
      assert items + others == (items + front) + [others[|others| - 1]];
    }
  }

  /** Redrawing changes the first object of its name and nothing else. */
  lemma {:induction false} RedrawnNamed<T>(items: seq<Item<T>>, name: string, body: T, other: string)
    ensures other != name ==> Named(Redrawn(items, name, body), other) == Named(items, other)
    ensures
      var before := Named(items, name);
      Named(Redrawn(items, name, body), name)
        == if before == [] then [] else [before[0].(body := body)] + before[1..]
    decreases |items|
  {
    if items != [] {
      hide Named;
      var x, rest := items[0], items[1..];
      var drawn := Redrawn(items, name, body);
      assert items == [x] + rest;
      NamedFirst(x, rest, name);
      NamedFirst(x, rest, other);
      NamedFirst(drawn[0], drawn[1..], name);
      NamedFirst(drawn[0], drawn[1..], other);
      assert drawn == [drawn[0]] + drawn[1..];
      if x.name != name {
        RedrawnNamed(rest, name, body, other);
        assert drawn[1..] == Redrawn(rest, name, body);
      } else {
        assert drawn[1..] == rest;
      }
    }
  }

  /** Of the objects of a name the first is given the body, and keeps its id and its place; all else stays. */
  lemma {:induction false} RedrawnIs<T>(items: seq<Item<T>>, name: string, body: T)
    ensures
      var r := Redrawn(items, name, body);
      forall k | 0 <= k < |items| :: r[k] == if IsFirst(items, name, k) then items[k].(body := body) else items[k]
    decreases |items|
  {
    if items != [] && items[0].name != name {
      var rest := items[1..];
      RedrawnIs(rest, name, body);
      forall k | 0 < k < |items| ensures IsFirst(items, name, k) <==> IsFirst(rest, name, k - 1) {
        assert forall j | 0 <= j < |rest| :: rest[j] == items[j + 1];
        assert forall j | 1 <= j < |items| :: items[j] == rest[j - 1];
      }
    }
  }

  lemma {:induction false} NamedFirst<T>(x: Item<T>, rest: seq<Item<T>>, name: string)
    ensures Named([x] + rest, name) == (if x.name == name then [x] else []) + Named(rest, name)
    decreases |rest|
  {
    hide Named;
    NamedNothing<T>(name);
    if rest == [] {
      NamedNext([], x, name);
      assert [x] + rest == [] + [x];
    } else {
      var front, last := rest[..|rest| - 1], rest[|rest| - 1];
      NamedFirst(x, front, name);
      NamedNext([x] + front, last, name);
      NamedNext(front, last, name);
      assert [x] + rest == ([x] + front) + [last] && rest == front + [last];
    }
  }

  lemma NamedNothing<T>(name: string)
    ensures Named<T>([], name) == []
  {
  }

  /**
   The client's view of the remote catalogue, listed in a fixed order. `newId` is the id the server
   gives a new object.
   */
  class SupersetClient {
    /** The server's uuid of a chart, and what of it the answers to a search or a create show: all or nothing. */
    const uuids: int -> string
    const shown: int -> string
    var datasets: seq<Item<Source>>
    var charts: seq<Item<Drawing>>

    constructor (uuids: int -> string, shown: int -> string)
      ensures this.uuids == uuids && this.shown == shown && datasets == [] && charts == []
    {
      this.uuids, this.shown := uuids, shown;
      datasets, charts := [], [];
    }

    /** Take the uuid from the answer, or else ask for the chart. */
    method ChartUuid(id: int) returns (uuid: string)
      requires shown(id) in {"", uuids(id)}
      ensures uuid == uuids(id)
    {
      uuid := shown(id);
      if uuid == "" {
        uuid := uuids(id);
      }
    }

    /** The first result of an equality filter. */
    static method FindOne<T>(items: seq<Item<T>>, name: string) returns (r: Option<Item<T>>)
      ensures r == if Named(items, name) == [] then None else Some(Named(items, name)[0])
    {
      var result: seq<Item<T>> := [];
      for i := 0 to |items|
        invariant result == Named(items[..i], name)
      {
        NamedNext(items[..i], items[i], name);
        assert items[..i + 1] == items[..i] + [items[i]];
        if items[i].name == name {
          result := result + [items[i]];
        }
      }
      assert items[..|items|] == items;
      return if |result| == 0 then None else Some(result[0]);
    }

    /** An existing dataset of that name is answered as it is. */
    method EnsureDataset(tableName: string, source: Source, newId: int) returns (id: int, created: bool)
      modifies this`datasets
      ensures datasets == Ensured(old(datasets), Item(newId, tableName, source))
      ensures created <==> Named(old(datasets), tableName) == []
      ensures Named(datasets, tableName) != [] && id == Named(datasets, tableName)[0].id
    {
      var existing := FindOne(datasets, tableName);
      if existing.Some? {
        return existing.value.id, false;
      }
      NamedNext(datasets, Item(newId, tableName, source), tableName);
      datasets := datasets + [Item(newId, tableName, source)];
      return newId, true;
    }

    /** An existing chart of that name is given the new payload; the uuid is that of the chart answered. */
    method EnsureChart(sliceName: string, drawing: Drawing, newId: int) returns (id: int, uuid: string, created: bool)
      requires forall chart :: shown(chart) in {"", uuids(chart)}
      modifies this`charts
      ensures uuid == uuids(id)
      ensures charts == if Named(old(charts), sliceName) == [] then old(charts) + [Item(newId, sliceName, drawing)]
                        else Redrawn(old(charts), sliceName, drawing)
      ensures created <==> Named(old(charts), sliceName) == []
      ensures Named(charts, sliceName) != [] && Named(charts, sliceName)[0] == Item(id, sliceName, drawing)
      ensures !created ==> id == Named(old(charts), sliceName)[0].id
    {
      var existing := FindOne(charts, sliceName);
      if existing.Some? {
        RedrawnNamed(charts, sliceName, drawing, sliceName);
        NamesAre(charts, sliceName);
        charts := Redrawn(charts, sliceName, drawing);
        uuid := ChartUuid(existing.value.id);
        return existing.value.id, uuid, false;
      }
      NamedNext(charts, Item(newId, sliceName, drawing), sliceName);
      charts := charts + [Item(newId, sliceName, drawing)];
      uuid := ChartUuid(newId);
      return newId, uuid, true;
    }
  }

  lemma {:induction false} NamesAre<T>(items: seq<Item<T>>, name: string)
    ensures forall k | 0 <= k < |Named(items, name)| :: Named(items, name)[k].name == name
    decreases |items|
  {
    if items != [] {
      NamesAre(items[..|items| - 1], name);
    }
  }

  /* ---------- what a promoted chart reads ---------- */

  /** The datasets after one promotion after another asked for the same name. */
  function EnsuredAll<T>(items: seq<Item<T>>, name: string, asked: seq<(int, T)>): seq<Item<T>>
    decreases |asked|
  {
    if asked == [] then items
    else EnsuredAll(Ensured(items, Item(asked[0].0, name, asked[0].1)), name, asked[1..])
  }

  /** The first body asked for stays, over any later ones. */
  lemma {:induction false} FirstAskedStays<T>(items: seq<Item<T>>, name: string, asked: seq<(int, T)>)
    requires asked != [] || Named(items, name) != []
    ensures
      var all := Named(EnsuredAll(items, name, asked), name);
      && all != []
      && all[0] == if Named(items, name) != [] then Named(items, name)[0] else Item(asked[0].0, name, asked[0].1)
    decreases |asked|
  {
    hide Named;
    if asked != [] {
      NamedNext(items, Item(asked[0].0, name, asked[0].1), name);
      FirstAskedStays(Ensured(items, Item(asked[0].0, name, asked[0].1)), name, asked[1..]);
    }
  }

  /**
   After any promotions under one table name, the dataset answered carries the last request's
   database, schema and SQL exactly when the dataset that was found first - in the catalogue, or
   made by the first of them - happens to carry them: the name alone is looked for, and nothing
   is updated.
   */
  lemma CarriesLastAskedIff(items: seq<Item<Source>>, name: string, asked: seq<(int, Source)>)
    requires asked != []
    ensures
      var all, last := Named(EnsuredAll(items, name, asked), name), asked[|asked| - 1].1;
      && all != []
      && (all[0].body == last
          <==> last == if Named(items, name) != [] then Named(items, name)[0].body else asked[0].1)
  {
    FirstAskedStays(items, name, asked);
  }

  /** A question asked again with other SQL keeps the old; a like-named table of another database is taken as it is. */
  lemma OldSourceStays()
    ensures
      var old_, new_ := Source(1, "", "select 1"), Source(1, "", "select 2");
      Named(EnsuredAll([], "t", [(7, old_), (8, new_)]), "t") == [Item(7, "t", old_)]
    ensures
      var foreign, mine := Source(9, "raw", ""), Source(1, "marts", "");
      Named(EnsuredAll([Item(5, "t", foreign)], "t", [(7, mine)]), "t") == [Item(5, "t", foreign)]
  {
    var old_, new_ := Source(1, "", "select 1"), Source(1, "", "select 2");
    var first, foreign := Item(7, "t", old_), Item(5, "t", Source(9, "raw", ""));
    NamedNext([], first, "t");
    NamedNext([], foreign, "t");
    assert [] + [first] == [first] && [] + [foreign] == [foreign];
    assert [(7, old_), (8, new_)][1..] == [(8, new_)];
    assert EnsuredAll([first], "t", [(8, new_)]) == EnsuredAll(Ensured([first], Item(8, "t", new_)), "t", []);
  }

  /* ---------- names ---------- */

  const HASH_LENGTH := 12

  /** The slug of a question hash on a date (YYYYMMDD). */
  function Slug(hash: string, date: string): string {
    "genbi-" + hash + "-" + date
  }

  /** The table name of a virtual dataset. */
  function TableName(hash: string): string {
    "genbi_q_" + hash
  }

  /** A slug tells the hash and the date apart, the hash having a fixed length. */
  lemma SlugDetermines(h1: string, d1: string, h2: string, d2: string)
    requires |h1| == HASH_LENGTH && |h2| == HASH_LENGTH
    ensures Slug(h1, d1) == Slug(h2, d2) <==> h1 == h2 && d1 == d2
  {
    var s1, s2 := Slug(h1, d1), Slug(h2, d2);
    assert s1[6..6 + HASH_LENGTH] == h1 && s2[6..6 + HASH_LENGTH] == h2;
    assert s1[7 + HASH_LENGTH..] == d1 && s2[7 + HASH_LENGTH..] == d2;
  }

  lemma TableNameDetermines(h1: string, h2: string)
    ensures TableName(h1) == TableName(h2) <==> h1 == h2
  {
    assert TableName(h1)[8..] == h1 && TableName(h2)[8..] == h2;
  }
}
