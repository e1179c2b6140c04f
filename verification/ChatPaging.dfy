/** server/internal/chat/store.go: cursors, and the two ways of paging through a growing table. */
module ChatPaging {
  import opened Codecs
  import opened Options
  import opened ChatStore
  import Graphs

  const BAR: Byte := 124

  /** A row's place in the listing: creation time in microseconds, then id. */
  datatype Key = Key(at: int, id: Bytes)

  /** `encodeCursor`. */
  function EncodeCursor(k: Key): Bytes {
    Encode(RawUrl, FormatInt(k.at) + [BAR] + k.id)
  }

  /** `strings.Cut(s, "|")`. */
  function Cut(s: Bytes): (r: (Bytes, Bytes, bool)) {
    if s == [] then ([], [], false)
    else if s[0] == BAR then ([], s[1..], true)
    else
      var (before, rest, ok) := Cut(s[1..]);
      ([s[0]] + before, rest, ok)
  }

  /** `decodeCursor`; `None` is ErrInvalidCursor. */
  function DecodeCursor(cursor: Bytes): Option<Key> {
    match Decode(RawUrl, cursor)
    case None => None
    case Some(raw) =>
      var (micros, id, ok) := Cut(raw);
      match ParseInt(micros)
      case None => None
      case Some(n) => if !ok || id == [] then None else Some(Key(n, id))
  }

  /** The cut is at the first bar, whatever follows it. */
  lemma {:induction false} CutAtFirst(a: Bytes, b: Bytes)
    requires forall i :: 0 <= i < |a| ==> a[i] != BAR
    ensures Cut(a + [BAR] + b) == (a, b, true)
  {
    var s := a + [BAR] + b;
    if a == [] {
      assert s == [BAR] + b;
      assert s[1..] == b;
    } else {
      CutAtFirst(a[1..], b);
      assert s[1..] == a[1..] + [BAR] + b;
      assert [a[0]] + a[1..] == a;
    }
  }

  lemma NoBarInNumber(n: int)
    ensures forall i :: 0 <= i < |FormatInt(n)| ==> FormatInt(n)[i] != BAR
  {
    var d := Decimal(if n < 0 then -n else n);
    forall i | 0 <= i < |FormatInt(n)| ensures FormatInt(n)[i] != BAR {
      if n < 0 && i > 0 { assert IsDigit(d[i - 1]); }
      if n >= 0 { assert IsDigit(d[i]); }
    }
  }

  /** A cursor decodes to the key it was made from exactly when the time is an int64 number of
      microseconds and the id is not empty; ids may contain the separator. */
  lemma CursorRoundTrip(k: Key)
    ensures DecodeCursor(EncodeCursor(k)) == if MIN64 <= k.at <= MAX64 && k.id != [] then Some(k) else None
  {
    hide Encode, Decode, FormatInt, ParseInt, Cut;
    RoundTrip(RawUrl, FormatInt(k.at) + [BAR] + k.id);
    NoBarInNumber(k.at);
    CutAtFirst(FormatInt(k.at), k.id);
    ParseFormat(k.at);
  }

  lemma CursorNotEmpty(k: Key)
    ensures EncodeCursor(k) != []
  {
    var raw := FormatInt(k.at) + [BAR] + k.id;
    assert |raw| > 0;
  }

  /** A conversation row as the listing sees it. */
  datatype Row = Row(key: Key, owner: string)

  /** The database's order on text ids: any strict total order. */
  type TextOrder = (Bytes, Bytes) -> bool

  ghost predicate StrictTotal(less: TextOrder) {
    && (forall a :: !less(a, a))
    && (forall a, b, c :: less(a, b) && less(b, c) ==> less(a, c))
    && (forall a, b :: less(a, b) || less(b, a) || a == b)
  }

  /** `(created_at, id) < (?, ?)`. */
  predicate Before(less: TextOrder, a: Key, b: Key) {
    a.at < b.at || (a.at == b.at && less(a.id, b.id))
  }

  /** ORDER BY created_at DESC, id DESC; strictness includes that no key repeats. */
  ghost predicate Descending(less: TextOrder, rows: seq<Row>) {
    forall i, j :: 0 <= i < j < |rows| ==> Before(less, rows[j].key, rows[i].key)
  }

  /** The row passes the WHERE clause; `None` stands for the first page. */
  predicate Matches(less: TextOrder, r: Row, owner: string, bound: Option<Key>) {
    r.owner == owner && (bound.Some? ==> Before(less, r.key, bound.value))
  }

  /** What the database may answer to the query with LIMIT `n`: the first `n` matching rows. */
  ghost predicate Answers(less: TextOrder, table: set<Row>, owner: string, bound: Option<Key>, n: nat, rows: seq<Row>) {
    && |rows| <= n && Descending(less, rows)
    && (forall r :: r in rows ==> r in table && Matches(less, r, owner, bound))
    && (forall r :: r in table && Matches(less, r, owner, bound) && r !in rows ==>
          |rows| == n && forall q :: q in rows ==> Before(less, r.key, q.key))
  }

  /** Keys come from the primary key and the insert time, so they are distinct and decodable. */
  ghost predicate SoundTable(table: set<Row>) {
    && (forall r, q :: r in table && q in table && r.key == q.key ==> r == q)
    && (forall r :: r in table ==> MIN64 <= r.key.at <= MAX64 && r.key.id != [])
  }

  datatype Listing = InvalidCursor | Page(rows: seq<Row>, next: Bytes)

  /** `ListConversations` around one database answer to the LIMIT `limit + 1` query. */
  method ListConversations(cursor: Bytes, limit: nat, answer: Option<Key> -> seq<Row>) returns (r: Listing)
    requires limit >= 1
    ensures r.InvalidCursor? <==> cursor != [] && DecodeCursor(cursor).None?
    ensures r.Page? ==> r == PageOf(answer(if cursor == [] then None else DecodeCursor(cursor)), limit)
  {
    hide DecodeCursor, EncodeCursor;
    var bound: Option<Key> := None;
    if cursor != [] {
      bound := DecodeCursor(cursor);
      if bound.None? {
        return InvalidCursor;
      }
    }
    var rows := answer(bound);
    var next: Bytes := [];
    if |rows| > limit {
      rows := rows[..limit];
      next := EncodeCursor(rows[|rows| - 1].key);
    }
    r := Page(rows, next);
  }

  function PageOf(rows: seq<Row>, limit: nat): Listing
    requires limit >= 1
  {
    if |rows| > limit then Page(rows[..limit], EncodeCursor(rows[limit - 1].key)) else Page(rows, [])
  }

  /** One request of a client that follows cursors: the table then, and what came back. */
  datatype Visit = Visit(table: set<Row>, rows: seq<Row>, next: Bytes)

  /** A client pages from `bound` until the cursor is empty, while the table only grows. */
  ghost predicate Follows(less: TextOrder, owner: string, limit: nat, bound: Option<Key>, visits: seq<Visit>)
    requires limit >= 1
    decreases |visits|
  {
    && visits != []
    && SoundTable(visits[0].table)
    && (exists answer: seq<Row> :: Answers(less, visits[0].table, owner, bound, limit + 1, answer)
                         && PageOf(answer, limit) == Page(visits[0].rows, visits[0].next))
    && (if visits[0].next == [] then |visits| == 1
        else
          && |visits| > 1 && visits[0].table <= visits[1].table
          && DecodeCursor(visits[0].next).Some?
          && Follows(less, owner, limit, DecodeCursor(visits[0].next), visits[1..]))
  }

  function AllRows(visits: seq<Visit>): seq<Row> {
    if visits == [] then [] else visits[0].rows + AllRows(visits[1..])
  }

  lemma BeforeTransitive(less: TextOrder, a: Key, b: Key, c: Key)
    requires StrictTotal(less) && Before(less, a, b) && Before(less, b, c)
    ensures Before(less, a, c)
  {
  }

  /** One page: nothing matching is passed over before its last row, and the cursor is that row. */
  lemma PageCovers(less: TextOrder, table: set<Row>, owner: string, bound: Option<Key>, limit: nat, answer: seq<Row>,
                   r: Row)
    requires limit >= 1 && StrictTotal(less) && SoundTable(table)
    requires Answers(less, table, owner, bound, limit + 1, answer)
    requires r in table && Matches(less, r, owner, bound)
    ensures |answer| <= limit ==> r in answer
    ensures |answer| > limit ==> r in answer[..limit] || Before(less, r.key, answer[limit - 1].key)
  {
    if |answer| > limit {
      var page, beyond := answer[..limit], answer[limit..];
      assert answer == page + beyond;
      assert beyond == [answer[limit]];
      assert answer[limit - 1] in answer;
    }
  }

  /** What following the cursors collects: descending order, so nothing twice; only the owner's
      rows below the bound; and every such row that was there at the start. */
  lemma {:induction false} FollowCovers(less: TextOrder, owner: string, limit: nat, bound: Option<Key>,
                                        visits: seq<Visit>)
    requires limit >= 1 && StrictTotal(less) && Follows(less, owner, limit, bound, visits)
    ensures Descending(less, AllRows(visits))
    ensures forall r :: r in AllRows(visits) ==> Matches(less, r, owner, bound)
    ensures forall r :: r in visits[0].table && Matches(less, r, owner, bound) ==> r in AllRows(visits)
    decreases |visits|
  {
    var v, rest := visits[0], visits[1..];
    var answer: seq<Row> :| Answers(less, v.table, owner, bound, limit + 1, answer)
        && PageOf(answer, limit) == Page(v.rows, v.next);
    if v.next == [] {
      LastPage(less, owner, limit, bound, visits, answer);
    } else {
      assert |answer| > limit;
      var last := answer[limit - 1].key;
      assert answer[limit - 1] in answer;
      CursorRoundTrip(last);
      FollowCovers(less, owner, limit, Some(last), rest);
      JoinPages(less, owner, limit, bound, v, answer, AllRows(rest), rest[0].table);
    }
  }

  lemma LastPage(less: TextOrder, owner: string, limit: nat, bound: Option<Key>, visits: seq<Visit>, answer: seq<Row>)
    requires limit >= 1 && StrictTotal(less) && |visits| == 1 && SoundTable(visits[0].table)
    requires Answers(less, visits[0].table, owner, bound, limit + 1, answer)
    requires PageOf(answer, limit) == Page(visits[0].rows, [])
    ensures AllRows(visits) == answer
    ensures forall r :: r in visits[0].table && Matches(less, r, owner, bound) ==> r in answer
  {
    if |answer| > limit { CursorNotEmpty(answer[limit - 1].key); }
    assert AllRows(visits) == visits[0].rows + AllRows(visits[1..]);
    assert visits[0].rows + [] == visits[0].rows;
    forall r | r in visits[0].table && Matches(less, r, owner, bound) ensures r in answer {
      PageCovers(less, visits[0].table, owner, bound, limit, answer, r);
    }
  }

  lemma JoinPages(less: TextOrder, owner: string, limit: nat, bound: Option<Key>, v: Visit, answer: seq<Row>,
                  later: seq<Row>, table: set<Row>)
    requires limit >= 1 && StrictTotal(less) && SoundTable(v.table) && v.table <= table
    requires Answers(less, v.table, owner, bound, limit + 1, answer) && |answer| > limit && v.rows == answer[..limit]
    requires Descending(less, later)
    requires forall r :: r in later ==> Matches(less, r, owner, Some(answer[limit - 1].key))
    requires forall r :: r in table && Matches(less, r, owner, Some(answer[limit - 1].key)) ==> r in later
    ensures Descending(less, v.rows + later)
    ensures forall r :: r in v.rows + later ==> Matches(less, r, owner, bound)
    ensures forall r :: r in v.table && Matches(less, r, owner, bound) ==> r in v.rows + later
  {
    var last := answer[limit - 1];
    assert last in answer;
    forall r | r in later ensures Matches(less, r, owner, bound) {
      if bound.Some? { BeforeTransitive(less, r.key, last.key, bound.value); }
    }
    forall r | r in v.rows ensures Matches(less, r, owner, bound) {
      assert r in answer;
    }
    forall r | r in v.table && Matches(less, r, owner, bound) ensures r in v.rows + later {
      PageCovers(less, v.table, owner, bound, limit, answer, r);
    }
    JoinDescending(less, v.rows, later, last);
  }

  lemma JoinDescending(less: TextOrder, page: seq<Row>, later: seq<Row>, last: Row)
    requires StrictTotal(less) && Descending(less, page) && Descending(less, later)
    requires |page| > 0 && page[|page| - 1] == last && forall r :: r in later ==> Before(less, r.key, last.key)
    ensures Descending(less, page + later)
  {
    var all := page + later;
    forall i, j | 0 <= i < j < |all| ensures Before(less, all[j].key, all[i].key) {
      if i < |page| <= j {
        assert all[j] in later;
        if i < |page| - 1 { BeforeTransitive(less, all[j].key, last.key, page[i].key); }
      }
    }
  }

  /** The listing as a whole: from the first page on, every conversation the owner had at the
      start comes exactly once, newest first, while rows may arrive at any time. */
  lemma ListingComplete(less: TextOrder, owner: string, limit: nat, visits: seq<Visit>, r: Row)
    requires limit >= 1 && StrictTotal(less) && Follows(less, owner, limit, None, visits)
    requires r in visits[0].table && r.owner == owner
    ensures Descending(less, AllRows(visits))
    ensures exists i :: 0 <= i < |AllRows(visits)| && AllRows(visits)[i] == r
                        && forall j :: 0 <= j < |AllRows(visits)| && AllRows(visits)[j] == r ==> j == i
  {
    FollowCovers(less, owner, limit, None, visits);
    var all := AllRows(visits);
    var i :| 0 <= i < |all| && all[i] == r;
    forall j | 0 <= j < |all| && all[j] == r ensures j == i {
      DescendingDistinct(less, all, i, j);
    }
  }

  lemma DescendingDistinct(less: TextOrder, rows: seq<Row>, i: nat, j: nat)
    requires StrictTotal(less) && Descending(less, rows) && i < |rows| && j < |rows|
    ensures i != j ==> rows[i] != rows[j]
  {
    if i != j {
      var a, b := if i < j then i else j, if i < j then j else i;
      assert Before(less, rows[b].key, rows[a].key);
      assert !Before(less, rows[a].key, rows[a].key);
    }
  }

  /** Following cursors comes to an end: there is at most one page more than the last table has rows. */
  lemma PagingEnds(less: TextOrder, owner: string, limit: nat, visits: seq<Visit>)
    requires limit >= 1 && StrictTotal(less) && Follows(less, owner, limit, None, visits)
    ensures |visits| - 1 <= |visits[|visits| - 1].table|
  {
    assert visits != [];
    hide Follows, Descending;
    var all, table := AllRows(visits), visits[|visits| - 1].table;
    FollowCovers(less, owner, limit, None, visits);
    PagesGiveRows(less, owner, limit, None, visits);
    forall i, j | 0 <= i < j < |all| ensures all[i] != all[j] { DescendingDistinct(less, all, i, j); }
    Graphs.NoRepeatsCount(all);
    Graphs.SubsetCount(Graphs.Members(all), table);
  }

  /** Every page but the last holds a row, and every row is still there at the end. */
  lemma {:induction false} PagesGiveRows(less: TextOrder, owner: string, limit: nat, bound: Option<Key>,
                                         visits: seq<Visit>)
    requires limit >= 1 && StrictTotal(less) && Follows(less, owner, limit, bound, visits)
    ensures |visits| - 1 <= |AllRows(visits)|
    ensures visits[0].table <= visits[|visits| - 1].table
    ensures forall r :: r in AllRows(visits) ==> r in visits[|visits| - 1].table
    decreases |visits|
  {
    hide Answers, PageOf, SoundTable, DecodeCursor, StrictTotal;
    var v, rest := visits[0], visits[1..];
    var answer: seq<Row> :| Answers(less, v.table, owner, bound, limit + 1, answer)
        && PageOf(answer, limit) == Page(v.rows, v.next);
    PageRows(less, v.table, owner, bound, limit, answer);
    assert AllRows(visits) == v.rows + AllRows(rest);
    if v.next != [] {
      PagesGiveRows(less, owner, limit, DecodeCursor(v.next), rest);
    }
  }

  lemma PageRows(less: TextOrder, table: set<Row>, owner: string, bound: Option<Key>, limit: nat, answer: seq<Row>)
    requires limit >= 1 && Answers(less, table, owner, bound, limit + 1, answer)
    ensures PageOf(answer, limit).Page? && forall r :: r in PageOf(answer, limit).rows ==> r in table
    ensures PageOf(answer, limit).next != [] ==> PageOf(answer, limit).rows != []
  {
    assert forall r :: r in PageOf(answer, limit).rows ==> r in answer;
  }

  /** Where reading starts: a negative number counts as zero. */
  function From(after: int): nat {
    if after < 0 then 0 else after
  }

  /** `ListEvents`: `seq > after ORDER BY seq LIMIT limit` on a gap-free table. */
  method ListEvents(events: seq<Event>, after: int, limit: nat) returns (page: seq<Event>)
    requires NumberedFromOne(events)
    ensures page == EventPage(events, after, limit)
    ensures forall i :: 0 <= i < |page| ==> page[i].number == From(after) + 1 + i
  {
    var from := From(after);
    page := [];
    for i := 0 to |events|
      invariant page == EventPage(events[..i], after, limit)
    {
      PageGrows(events, i, after, limit);
      if events[i].number > from && |page| < limit {
        page := page + [events[i]];
      }
    }
    assert events[..|events|] == events;
  }

  function EventPage(events: seq<Event>, after: int, limit: nat): seq<Event> {
    var from := From(after);
    if from >= |events| then []
    else if |events| - from <= limit then events[from..]
    else events[from..from + limit]
  }

  /** One more row scanned joins the page exactly when it is past `after` and the page has room. */
  lemma PageGrows(events: seq<Event>, i: nat, after: int, limit: nat)
    requires NumberedFromOne(events) && i < |events|
    ensures var page := EventPage(events[..i], after, limit);
            EventPage(events[..i + 1], after, limit) ==
              if events[i].number > From(after) && |page| < limit then page + [events[i]] else page
  {
    var from := From(after);
    if from <= i {
      assert events[..i + 1] == events[..i] + [events[i]];
      assert events[..i + 1][from..] == events[..i][from..] + [events[i]];
      if i + 1 - from > limit && i - from >= limit {
        assert events[..i + 1][from..from + limit] == events[..i][from..from + limit];
      }
    }
  }

  function LastSeen(after: int, page: seq<Event>): int {
    if page == [] then after else page[|page| - 1].number
  }

  ghost predicate Polls(after: int, limit: nat, tables: seq<seq<Event>>, pages: seq<seq<Event>>)
    decreases |tables|
  {
    && |tables| == |pages|
    && (tables != [] ==>
          && NumberedFromOne(tables[0])
          && pages[0] == EventPage(tables[0], after, limit)
          && (|tables| > 1 ==> tables[0] <= tables[1])
          && Polls(LastSeen(after, pages[0]), limit, tables[1..], pages[1..]))
  }

  function Concat(pages: seq<seq<Event>>): seq<Event> {
    if pages == [] then [] else pages[0] + Concat(pages[1..])
  }

  /** A reader asks again and again, each time after the last number it has seen, while the table
      grows: what it has seen is then the table's own stretch from where it started, each event once
      and in order, and nothing while the table has not come that far. */
  lemma {:induction false} PollingSeesEachOnce(after: int, limit: nat, tables: seq<seq<Event>>, pages: seq<seq<Event>>)
    requires limit >= 1 && Polls(after, limit, tables, pages) && tables != []
    ensures var last, all := tables[|tables| - 1], Concat(pages);
            if From(after) <= |last| then
              && From(after) + |all| <= |last|
              && all == last[From(after)..From(after) + |all|]
              && (pages[|pages| - 1] == [] ==> From(after) + |all| == |last|)
            else all == []
    decreases |tables|
  {
    hide NumberedFromOne, EventPage, LastSeen, From;
    var page := pages[0];
    assert Concat(pages) == page + Concat(pages[1..]);
    if |tables| == 1 {
      assert Concat(pages[1..]) == [];
      assert page + [] == page;
      OnePage(tables[0], after, limit);
    } else {
      SeenNumber(tables[0], after, limit);
      PollingSeesEachOnce(LastSeen(after, page), limit, tables[1..], pages[1..]);
      TablesGrow(LastSeen(after, page), limit, tables[1..], pages[1..]);
      GrownPage(tables[0], tables[|tables| - 1], after, limit);
      Stretches(tables[|tables| - 1], From(after), |page|, |Concat(pages[1..])|);
    }
  }

  /** The last number seen says how far the reader has come. */
  lemma SeenNumber(events: seq<Event>, after: int, limit: nat)
    requires NumberedFromOne(events)
    ensures var page := EventPage(events, after, limit);
            From(LastSeen(after, page)) == From(after) + |page|
  {
  }

  lemma Stretches(s: seq<Event>, from: nat, m: nat, n: nat)
    ensures from + m + n <= |s| ==> s[from..from + m] + s[from + m..from + m + n] == s[from..from + m + n]
  {
  }

  /** A page is a stretch of its table, and an empty one says that the reader is at its end. */
  lemma OnePage(events: seq<Event>, after: int, limit: nat)
    requires limit >= 1
    ensures var page := EventPage(events, after, limit);
            if From(after) <= |events| then
              && From(after) + |page| <= |events| && page == events[From(after)..From(after) + |page|]
              && (page == [] ==> From(after) == |events|)
            else page == []
  {
  }

  /** A page of an earlier table is a stretch of a later one. */
  lemma GrownPage(events: seq<Event>, last: seq<Event>, after: int, limit: nat)
    requires events <= last
    ensures var page := EventPage(events, after, limit);
            && (page != [] ==> From(after) + |page| <= |last| && page == last[From(after)..From(after) + |page|])
  {
  }

  lemma {:induction false} TablesGrow(after: int, limit: nat, tables: seq<seq<Event>>, pages: seq<seq<Event>>)
    requires Polls(after, limit, tables, pages) && tables != []
    ensures tables[0] <= tables[|tables| - 1]
    decreases |tables|
  {
    if |tables| > 1 {
      TablesGrow(LastSeen(after, pages[0]), limit, tables[1..], pages[1..]);
    }
  }
}
