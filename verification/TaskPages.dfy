/** list_tasks: keyset pagination over a task table that changes between requests. */
module TaskPages {
  import opened Wrappers

  // created_at and task_id; no two tasks share both.
  datatype Key = Key(createdAt: int, taskId: nat)

  // (a.created_at, a.task_id) < (b.created_at, b.task_id)
  predicate Before(a: Key, b: Key) {
    a.createdAt < b.createdAt || (a.createdAt == b.createdAt && a.taskId < b.taskId)
  }

  // encode_task_cursor and decode_task_cursor; None is the decoder's (None, None).
  datatype Codec = Codec(encode: Key -> string, decode: string -> Option<Key>)

  ghost predicate RoundTrips(codec: Codec) {
    forall k: Key :: codec.encode(k) != "" && codec.decode(codec.encode(k)) == Some(k)
  }

  datatype Page = Page(tasks: seq<Key>, total: nat, next: Option<string>) | Raised

  function Resume(codec: Codec, cursor: Option<string>): Option<Key> {
    if cursor.Some? && cursor.value != "" then codec.decode(cursor.value) else None
  }

  // The WHERE clause: any filter on the row, and the keyset condition.
  function Matching<R>(table: map<Key, R>, where: R -> bool, from: Option<Key>): set<Key> {
    set k | k in table && where(table[k]) && (from.Some? ==> Before(k, from.value))
  }

  ghost function Newest(keys: set<Key>): (k: Key)
    requires keys != {}
    ensures k in keys && forall other :: other in keys && other != k ==> Before(other, k)
  {
    var k :| k in keys;
    if keys == {k} then k
    else
      assert keys - {k} != {} && forall other :: other in keys && other != k ==> other in keys - {k};
      var rest := Newest(keys - {k});
      if Before(rest, k) then k else rest
  }

  // ORDER BY created_at DESC, task_id DESC
  ghost function Sorted(keys: set<Key>): seq<Key> {
    if keys == {} then [] else [Newest(keys)] + Sorted(keys - {Newest(keys)})
  }

  function Min(a: nat, b: nat): nat {
    if a < b then a else b
  }

  // A limit of 0 fails on the last element of no rows, a negative one in the database.
  ghost function ListTasks<R>(codec: Codec, table: map<Key, R>, where: R -> bool,
                              limit: int, offset: nat, cursor: Option<string>): Page {
    if limit <= 0 then Raised
    else
      var from := Resume(codec, cursor);
      var keys := Sorted(Matching(table, where, from));
      var start := Min(if from.Some? then 0 else offset, |keys|);
      var tasks := keys[start..Min(start + limit, |keys|)];
      Page(tasks, |keys|, if |tasks| == limit then Some(codec.encode(tasks[limit - 1])) else None)
  }

  // ---------------------------------------------------------------- order

  ghost predicate Descending(keys: seq<Key>) {
    forall i, j :: 0 <= i < j < |keys| ==> Before(keys[j], keys[i])
  }

  lemma {:induction false} SortedIsSorted(keys: set<Key>)
    ensures Descending(Sorted(keys)) && |Sorted(keys)| == |keys|
    ensures forall k :: k in Sorted(keys) <==> k in keys
  {
    if keys != {} {
      var k := Newest(keys);
      SortedIsSorted(keys - {k});
      assert Sorted(keys) == [k] + Sorted(keys - {k});
      hide Sorted, Before;
      var rest := Sorted(keys - {k});
      forall i, j | 0 <= i < j < |rest| + 1
        ensures Before(([k] + rest)[j], ([k] + rest)[i])
      {
        assert rest[j - 1] in keys - {k};
      }
    }
  }

  lemma {:induction false} DescendingUnique(a: seq<Key>, b: seq<Key>)
    requires Descending(a) && Descending(b) && forall k :: k in a <==> k in b
    ensures a == b
  {
    assert a != [] ==> a[0] in a;
    assert b != [] ==> b[0] in b;
    if a != [] {
      var m :| 0 <= m < |b| && b[m] == a[0];
      var n :| 0 <= n < |a| && a[n] == b[0];
      assert m == 0;
      TailsAgree(a, b);
      DescendingUnique(a[1..], b[1..]);
      assert a == [a[0]] + a[1..] && b == [b[0]] + b[1..];
    }
  }

  lemma TailsAgree(a: seq<Key>, b: seq<Key>)
    requires Descending(a) && Descending(b) && a != [] && b != [] && a[0] == b[0]
    requires forall k :: k in a <==> k in b
    ensures Descending(a[1..]) && Descending(b[1..]) && forall k :: k in a[1..] <==> k in b[1..]
  {
    forall k
      ensures k in a[1..] <==> k in b[1..]
    {
      InTail(a, k);
      InTail(b, k);
    }
  }

  lemma InTail(a: seq<Key>, k: Key)
    requires Descending(a) && a != []
    ensures k in a[1..] <==> k in a && k != a[0]
  {
    if k in a && k != a[0] {
      var i :| 0 <= i < |a| && a[i] == k;
      assert a[1..][i - 1] == k;
    }
  }

  // A page and everything below its last row are all there is.
  lemma SortedAfter(keys: set<Key>, below: set<Key>, n: nat)
    requires 0 < n <= |Sorted(keys)|
    requires forall k :: k in below <==> k in keys && Before(k, Sorted(keys)[n - 1])
    ensures Sorted(below) == Sorted(keys)[n..]
  {
    var all := Sorted(keys);
    SortedIsSorted(keys);
    SortedIsSorted(below);
    hide Sorted;
    forall k
      ensures k in all[n..] <==> k in below
    {
      if k in all[n..] {
        var i :| 0 <= i < |all| - n && all[n..][i] == k;
        assert all[n + i] == k;
      }
      if k in below {
        assert k in all;
        var i :| 0 <= i < |all| && all[i] == k;
        assert i >= n;
        assert all[n..][i - n] == k;
      }
    }
    DescendingUnique(Sorted(below), all[n..]);
  }

  // ---------------------------------------------------------------- one page

  predicate Newer(a: Key, b: Key) {
    a.createdAt > b.createdAt || (a.createdAt == b.createdAt && a.taskId > b.taskId)
  }

  // A task that a request may list: it passes the filter and is older than where the cursor points.
  ghost predicate Listable<R>(table: map<Key, R>, where: R -> bool, from: Option<Key>, k: Key) {
    k in table && where(table[k]) && (from.Some? ==> Newer(from.value, k))
  }

  ghost function Listables<R>(table: map<Key, R>, where: R -> bool, from: Option<Key>): set<Key> {
    set k | k in table && Listable(table, where, from, k)
  }

  ghost function NewerOnes(keys: set<Key>, k: Key): set<Key> {
    set x | x in keys && Newer(x, k)
  }

  lemma MatchingIsListable<R>(table: map<Key, R>, where: R -> bool, from: Option<Key>)
    ensures Matching(table, where, from) == Listables(table, where, from)
  {
  }

  // Position i of a descending list has i keys before it.
  lemma {:induction false} RankAt(keys: seq<Key>, i: nat)
    requires Descending(keys) && i < |keys|
    ensures |NewerOnes((set k | k in keys), keys[i])| == i
  {
    var newer := NewerOnes((set k | k in keys), keys[i]);
    forall x
      ensures x in newer <==> x in keys[..i]
    {
      if x in newer {
        var j :| 0 <= j < |keys| && keys[j] == x;
        assert j < i;
        assert keys[..i][j] == x;
      }
      if x in keys[..i] {
        var j :| 0 <= j < i && keys[..i][j] == x;
        assert keys[j] == x;
      }
    }
    assert newer == set x | x in keys[..i];
    Distinct(keys[..i]);
  }

  lemma {:induction false} Distinct(keys: seq<Key>)
    requires Descending(keys)
    ensures |(set k | k in keys)| == |keys|
  {
    if keys != [] {
      var front, last := keys[..|keys| - 1], keys[|keys| - 1];
      Distinct(front);
      assert last !in front;
      assert (set k | k in keys) == (set k | k in front) + {last};
    }
  }

  lemma PageSlice<R>(codec: Codec, table: map<Key, R>, where: R -> bool, limit: nat, offset: nat,
                     cursor: Option<string>)
    requires limit > 0
    ensures var page, from := ListTasks(codec, table, where, limit, offset, cursor), Resume(codec, cursor);
      var keys := Sorted(Matching(table, where, from));
      && page.Page? && page.tasks == Slice(keys, if from.Some? then 0 else offset, limit) && page.total == |keys|
      && page.next == if |page.tasks| == limit then Some(codec.encode(page.tasks[limit - 1])) else None
  {
    hide Sorted, Matching, Resume;
  }

  // tasks are those of keys with at least start and less than start + limit newer ones, newest first.
  ghost predicate IsPage(keys: set<Key>, tasks: seq<Key>, start: nat, limit: nat) {
    && (forall k :: k in tasks <==> k in keys && start <= |NewerOnes(keys, k)| < start + limit)
    && forall i, j :: 0 <= i < j < |tasks| ==> Newer(tasks[i], tasks[j])
  }

  ghost function Slice(all: seq<Key>, start: nat, limit: nat): seq<Key> {
    all[Min(start, |all|)..Min(Min(start, |all|) + limit, |all|)]
  }

  lemma InSlice(all: seq<Key>, start: nat, limit: nat, i: nat)
    requires Descending(all) && i < |all|
    ensures all[i] in Slice(all, start, limit) <==> start <= i < start + limit
  {
    var first := Min(start, |all|);
    if all[i] in Slice(all, start, limit) {
      var m :| 0 <= m < |Slice(all, start, limit)| && Slice(all, start, limit)[m] == all[i];
      assert all[first + m] == all[i];
    }
    if start <= i < start + limit {
      assert Slice(all, start, limit)[i - first] == all[i];
    }
  }

  lemma SliceWithin(all: seq<Key>, start: nat, limit: nat, k: Key)
    requires k in Slice(all, start, limit)
    ensures k in all
  {
  }

  lemma SliceDescends(all: seq<Key>, start: nat, limit: nat)
    requires Descending(all)
    ensures forall i, j :: 0 <= i < j < |Slice(all, start, limit)| ==>
      Newer(Slice(all, start, limit)[i], Slice(all, start, limit)[j])
  {
    var tasks, first := Slice(all, start, limit), Min(start, |all|);
    forall i, j | 0 <= i < j < |tasks|
      ensures Newer(tasks[i], tasks[j])
    {
      assert Before(all[first + j], all[first + i]);
    }
  }

  lemma RankDecides(keys: set<Key>, all: seq<Key>, start: nat, limit: nat, k: Key)
    requires Descending(all) && keys == (set x | x in all)
    ensures k in Slice(all, start, limit) <==> k in keys && start <= |NewerOnes(keys, k)| < start + limit
  {
    hide Slice, NewerOnes;
    if k in all {
      hide Descending;
      var i :| 0 <= i < |all| && all[i] == k;
      RankAt(all, i);
      InSlice(all, start, limit, i);
    } else if k in Slice(all, start, limit) {
      SliceWithin(all, start, limit, k);
    }
  }

  lemma RankedPage(keys: set<Key>, all: seq<Key>, start: nat, limit: nat)
    requires Descending(all) && keys == (set x | x in all)
    ensures IsPage(keys, Slice(all, start, limit), start, limit)
  {
    hide Slice, Descending, NewerOnes, Newer;
    forall k
      ensures k in Slice(all, start, limit) <==> k in keys && start <= |NewerOnes(keys, k)| < start + limit
    {
      RankDecides(keys, all, start, limit, k);
    }
    SliceDescends(all, start, limit);
  }

  lemma SortedPage(keys: set<Key>, start: nat, limit: nat)
    ensures IsPage(keys, Slice(Sorted(keys), start, limit), start, limit) && |Sorted(keys)| == |keys|
    ensures |Slice(Sorted(keys), start, limit)| <= limit
  {
    hide Sorted, IsPage;
    SortedIsSorted(keys);
    RankedPage(keys, Sorted(keys), start, limit);
  }

  /** A page lists, newest first, exactly the tasks that have at least as many newer ones before them as the offset
      says, and less than a limit more; a cursor puts the offset out of force. The total counts all that a
      request may list, and there is a next cursor exactly on a full page. */
  lemma PageMeaning<R>(codec: Codec, table: map<Key, R>, where: R -> bool, limit: nat, offset: nat,
                       cursor: Option<string>)
    requires limit > 0
    ensures var page, from := ListTasks(codec, table, where, limit, offset, cursor), Resume(codec, cursor);
      var keys, start := Listables(table, where, from), if from.Some? then 0 else offset;
      && page.Page? && page.total == |keys|
      && IsPage(keys, page.tasks, start, limit) && |page.tasks| <= limit
      && page.next == if |page.tasks| == limit then Some(codec.encode(page.tasks[limit - 1])) else None
  {
    var from := Resume(codec, cursor);
    var keys, start := Listables(table, where, from), if from.Some? then 0 else offset;
    MatchingIsListable(table, where, from);
    PageSlice(codec, table, where, limit, offset, cursor);
    hide Listables, Resume, ListTasks, Matching, IsPage;
    SortedPage(keys, start, limit);
  }

  // ---------------------------------------------------------------- a walk

  datatype Client<!R> = Client(codec: Codec, where: R -> bool, limit: nat)

  // Request i, which sees tables[i] and sends the cursor of request i - 1.
  ghost function Request<R>(c: Client<R>, tables: seq<map<Key, R>>, i: nat): (page: Page)
    requires c.limit > 0 && i < |tables|
    ensures page.Page?
  {
    ListTasks(c.codec, tables[i], c.where, c.limit, 0, if i == 0 then None else Request(c, tables, i - 1).next)
  }

  // The first i requests all returned a cursor.
  ghost predicate Continues<R>(c: Client<R>, tables: seq<map<Key, R>>, i: nat)
    requires c.limit > 0 && i <= |tables|
  {
    forall j: nat :: j < i ==> Request(c, tables, j).next.Some?
  }

  // What the first i pages held.
  ghost function Seen<R>(c: Client<R>, tables: seq<map<Key, R>>, i: nat): seq<Key>
    requires c.limit > 0 && i <= |tables|
  {
    if i == 0 then [] else Seen(c, tables, i - 1) + Request(c, tables, i - 1).tasks
  }

  // The key that request i resumes after.
  ghost function From<R>(c: Client<R>, tables: seq<map<Key, R>>, i: nat): Option<Key>
    requires c.limit > 0 && i <= |tables| && Continues(c, tables, i)
    requires RoundTrips(c.codec)
  {
    if i == 0 then None
    else
      assert Request(c, tables, i - 1).next.Some?;
      var tasks := Request(c, tables, i - 1).tasks;
      if tasks == [] then None else Some(tasks[|tasks| - 1])
  }

  ghost function Pending<R>(c: Client<R>, tables: seq<map<Key, R>>, i: nat): set<Key>
    requires c.limit > 0 && i < |tables| && Continues(c, tables, i) && RoundTrips(c.codec)
  {
    Matching(tables[i], c.where, From(c, tables, i))
  }

  lemma ListedPage<R>(codec: Codec, table: map<Key, R>, where: R -> bool, limit: nat, cursor: Option<string>)
    requires limit > 0
    ensures var page := ListTasks(codec, table, where, limit, 0, cursor);
      var keys := Sorted(Matching(table, where, Resume(codec, cursor)));
      && page.Page? && page.tasks == keys[..Min(limit, |keys|)] && page.total == |keys|
      && page.next == if |keys| >= limit then Some(codec.encode(page.tasks[limit - 1])) else None
  {
    hide Sorted, Matching, Resume;
  }

  lemma CursorResumes<R>(c: Client<R>, tables: seq<map<Key, R>>, i: nat)
    requires c.limit > 0 && i <= |tables| && Continues(c, tables, i) && RoundTrips(c.codec)
    ensures Resume(c.codec, if i == 0 then None else Request(c, tables, i - 1).next) == From(c, tables, i)
    ensures i > 0 ==> var tasks := Request(c, tables, i - 1).tasks;
      |tasks| == c.limit && From(c, tables, i) == Some(tasks[c.limit - 1])
  {
    if i > 0 {
      var cursor := if i == 1 then None else Request(c, tables, i - 2).next;
      assert Request(c, tables, i - 1) == ListTasks(c.codec, tables[i - 1], c.where, c.limit, 0, cursor);
      assert Request(c, tables, i - 1).next.Some?;
      ListedPage(c.codec, tables[i - 1], c.where, c.limit, cursor);
      hide ListTasks, Sorted, Request, Continues, Matching;
    }
  }

  // Request i answers the newest pending rows, up to the limit.
  lemma RequestMeaning<R>(c: Client<R>, tables: seq<map<Key, R>>, i: nat)
    requires c.limit > 0 && i < |tables| && Continues(c, tables, i) && RoundTrips(c.codec)
    ensures var page, keys := Request(c, tables, i), Sorted(Pending(c, tables, i));
      && page.tasks == keys[..Min(c.limit, |keys|)] && page.total == |keys|
      && (page.next.Some? <==> |keys| >= c.limit)
  {
    CursorResumes(c, tables, i);
    var cursor := if i == 0 then None else Request(c, tables, i - 1).next;
    assert Request(c, tables, i) == ListTasks(c.codec, tables[i], c.where, c.limit, 0, cursor);
    ListedPage(c.codec, tables[i], c.where, c.limit, cursor);
    hide ListTasks, Sorted, Request, Continues, Matching, From, Resume;
  }

  lemma DescendingJoin(a: seq<Key>, b: seq<Key>)
    requires Descending(a) && Descending(b)
    requires a != [] ==> forall k :: k in b ==> Before(k, a[|a| - 1])
    ensures Descending(a + b)
  {
    forall i, j | 0 <= i < j < |a| + |b|
      ensures Before((a + b)[j], (a + b)[i])
    {
      if i < |a| <= j {
        assert b[j - |a|] in b;
        assert Before(b[j - |a|], a[|a| - 1]);
      }
    }
  }

  lemma SortedPrefix(keys: set<Key>, n: nat)
    requires n <= |Sorted(keys)|
    ensures Descending(Sorted(keys)[..n])
    ensures forall k :: k in Sorted(keys)[..n] ==> k in keys
    ensures forall k :: k in keys ==> k in Sorted(keys)[..n] || (n > 0 ==> Before(k, Sorted(keys)[n - 1]))
  {
    var all := Sorted(keys);
    SortedIsSorted(keys);
    hide Sorted;
    forall k | k in keys
      ensures k in all[..n] || (n > 0 ==> Before(k, all[n - 1]))
    {
      assert k in all;
      var i :| 0 <= i < |all| && all[i] == k;
      assert i < n ==> all[..n][i] == k;
    }
  }

  // A page is in order, comes from the pending rows and leaves only older ones behind.
  lemma PageFacts<R>(c: Client<R>, tables: seq<map<Key, R>>, i: nat)
    requires c.limit > 0 && i < |tables| && Continues(c, tables, i) && RoundTrips(c.codec)
    ensures var page, pending := Request(c, tables, i), Pending(c, tables, i);
      && Descending(page.tasks) && (forall k :: k in page.tasks ==> k in pending)
      && (page.next.Some? ==> |page.tasks| == c.limit)
      && forall k :: k in pending ==> k in page.tasks || (page.next.Some? && Before(k, page.tasks[c.limit - 1]))
  {
    var keys := Sorted(Pending(c, tables, i));
    RequestMeaning(c, tables, i);
    SortedPrefix(Pending(c, tables, i), Min(c.limit, |keys|));
    SortedIsSorted(Pending(c, tables, i));
    hide Request, Sorted, Continues, Pending, Descending, Before;
    assert keys[..|keys|] == keys;
  }

  lemma ContinuesFrom<R>(c: Client<R>, tables: seq<map<Key, R>>, n: nat)
    requires c.limit > 0 && 0 < n <= |tables| && Continues(c, tables, n)
    ensures Continues(c, tables, n - 1) && Request(c, tables, n - 1).next.Some?
  {
    hide Request;
  }

  lemma ContinuesTo<R>(c: Client<R>, tables: seq<map<Key, R>>, n: nat)
    requires c.limit > 0 && n < |tables| && Continues(c, tables, n) && Request(c, tables, n).next.Some?
    ensures Continues(c, tables, n + 1)
  {
    hide Request;
  }

  lemma SeenSnoc<R>(c: Client<R>, tables: seq<map<Key, R>>, n: nat)
    requires c.limit > 0 && n < |tables|
    ensures Seen(c, tables, n + 1) == Seen(c, tables, n) + Request(c, tables, n).tasks
  {
    hide Request;
  }

  lemma SeenEnds<R>(c: Client<R>, tables: seq<map<Key, R>>, n: nat)
    requires c.limit > 0 && 0 < n <= |tables| && Continues(c, tables, n) && RoundTrips(c.codec)
    ensures var seen := Seen(c, tables, n); seen != [] && From(c, tables, n) == Some(seen[|seen| - 1])
  {
    CursorResumes(c, tables, n);
    SeenSnoc(c, tables, n - 1);
    hide Request, Continues, From, Seen;
  }

  lemma PendingIsOlder<R>(c: Client<R>, tables: seq<map<Key, R>>, i: nat, k: Key)
    requires c.limit > 0 && i < |tables| && Continues(c, tables, i) && RoundTrips(c.codec)
    requires k in Pending(c, tables, i)
    ensures From(c, tables, i).Some? ==> Before(k, From(c, tables, i).value)
  {
    hide Request, From, Continues;
  }

  /** However the table changes between requests, no task is ever listed twice: what a client has seen is
      strictly descending. */
  lemma {:induction false} NothingIsRepeated<R>(c: Client<R>, tables: seq<map<Key, R>>, n: nat)
    requires c.limit > 0 && n <= |tables| && RoundTrips(c.codec) && (n > 0 ==> Continues(c, tables, n - 1))
    ensures Descending(Seen(c, tables, n))
  {
    hide Request, Continues, Pending, Descending, From;
    if n > 0 {
      var i := n - 1;
      PageFacts(c, tables, i);
      SeenSnoc(c, tables, i);
      if i > 0 {
        ContinuesFrom(c, tables, i);
        NothingIsRepeated(c, tables, i);
        SeenEnds(c, tables, i);
        forall k | k in Request(c, tables, i).tasks
          ensures Before(k, From(c, tables, i).value)
        {
          PendingIsOlder(c, tables, i, k);
        }
      }
      hide Seen, Before;
      if i == 0 {
        NothingSeen(c, tables);
      }
      DescendingJoin(Seen(c, tables, i), Request(c, tables, i).tasks);
    } else {
      NothingSeen(c, tables);
    }
  }

  lemma NothingSeen<R>(c: Client<R>, tables: seq<map<Key, R>>)
    requires c.limit > 0
    ensures Seen(c, tables, 0) == [] && Descending([])
  {
  }

  lemma {:induction false} SeenOrPending<R>(c: Client<R>, tables: seq<map<Key, R>>, n: nat, key: Key)
    requires c.limit > 0 && n < |tables| && RoundTrips(c.codec) && Continues(c, tables, n)
    requires forall i :: 0 <= i <= n ==> key in Matching(tables[i], c.where, None)
    ensures key in Seen(c, tables, n) || key in Pending(c, tables, n)
  {
    assert key in Matching(tables[n], c.where, None);
    hide Seen, Request, Sorted, Continues, Descending, From;
    if n > 0 {
      var i := n - 1;
      ContinuesFrom(c, tables, n);
      SeenOrPending(c, tables, i, key);
      PageFacts(c, tables, i);
      CursorResumes(c, tables, n);
      SeenSnoc(c, tables, i);
    } else {
      NothingBefore(c, tables);
    }
  }

  lemma NothingBefore<R>(c: Client<R>, tables: seq<map<Key, R>>)
    requires c.limit > 0 && RoundTrips(c.codec)
    ensures Continues(c, tables, 0) && From(c, tables, 0) == None
  {
  }

  /** Once the listing ends, every task that matched at each request has been listed, whatever was inserted,
      changed or deleted around it. */
  lemma NothingIsMissed<R>(c: Client<R>, tables: seq<map<Key, R>>, n: nat, key: Key)
    requires c.limit > 0 && 0 < n <= |tables| && RoundTrips(c.codec)
    requires Continues(c, tables, n - 1) && Request(c, tables, n - 1).next.None?
    requires forall i :: 0 <= i < n ==> key in Matching(tables[i], c.where, None)
    ensures key in Seen(c, tables, n)
  {
    var i := n - 1;
    hide Seen, Request, Continues, Descending, Pending, Matching;
    SeenOrPending(c, tables, i, key);
    PageFacts(c, tables, i);
    SeenSnoc(c, tables, i);
  }

  // Between requests the matching rows older than the cursor stay the same; newer ones may come and go.
  ghost predicate Settled<R>(c: Client<R>, tables: seq<map<Key, R>>)
    requires c.limit > 0 && RoundTrips(c.codec)
  {
    forall i :: 0 < i < |tables| && Continues(c, tables, i)
      ==> Pending(c, tables, i) == Matching(tables[i - 1], c.where, From(c, tables, i))
  }

  lemma PendingShrinks<R>(c: Client<R>, tables: seq<map<Key, R>>, i: nat)
    requires c.limit > 0 && i + 1 < |tables| && RoundTrips(c.codec) && Settled(c, tables)
    requires Continues(c, tables, i) && Continues(c, tables, i + 1)
    ensures From(c, tables, i + 1) == Some(Request(c, tables, i).tasks[c.limit - 1])
    ensures forall k ::
      k in Pending(c, tables, i + 1) <==> k in Pending(c, tables, i) && Before(k, From(c, tables, i + 1).value)
  {
    CursorResumes(c, tables, i + 1);
    PageFacts(c, tables, i);
    var last := From(c, tables, i + 1).value;
    assert last in Request(c, tables, i).tasks;
    assert last in Pending(c, tables, i);
    hide Request, Sorted, Continues, Seen, From;
  }

  lemma SnapshotStep<R>(c: Client<R>, tables: seq<map<Key, R>>, i: nat)
    requires c.limit > 0 && i + 1 < |tables| && RoundTrips(c.codec) && Settled(c, tables) && Continues(c, tables, i)
    requires |Sorted(Pending(c, tables, i))| >= c.limit
    requires Accounted(c, tables, i)
    ensures Continues(c, tables, i + 1) && Accounted(c, tables, i + 1)
    ensures |Sorted(Pending(c, tables, i + 1))| == |Sorted(Pending(c, tables, i))| - c.limit
  {
    hide Request, Continues, Pending, Seen, Sorted, Settled, From;
    RequestMeaning(c, tables, i);
    ContinuesTo(c, tables, i);
    PendingShrinks(c, tables, i);
    var keys := Sorted(Pending(c, tables, i));
    SortedAfter(Pending(c, tables, i), Pending(c, tables, i + 1), c.limit);
    SeenSnoc(c, tables, i);
    assert keys == keys[..c.limit] + keys[c.limit..];
  }

  // How many tasks n full pages hold.
  function FullPages(n: nat, limit: nat): nat {
    n * limit
  }

  lemma FullPagesStep(n: nat, limit: nat)
    ensures FullPages(n + 1, limit) == FullPages(n, limit) + limit
  {
  }

  // What has been seen and what is pending make up the first snapshot.
  ghost predicate Accounted<R>(c: Client<R>, tables: seq<map<Key, R>>, i: nat)
    requires c.limit > 0 && i < |tables| && Continues(c, tables, i) && RoundTrips(c.codec)
  {
    Seen(c, tables, i) + Sorted(Pending(c, tables, i)) == Sorted(Matching(tables[0], c.where, None))
  }

  lemma FirstRequest<R>(c: Client<R>, tables: seq<map<Key, R>>)
    requires c.limit > 0 && tables != [] && RoundTrips(c.codec)
    ensures Continues(c, tables, 0) && Accounted(c, tables, 0)
    ensures |Sorted(Pending(c, tables, 0))| == |Matching(tables[0], c.where, None)|
  {
    SortedIsSorted(Matching(tables[0], c.where, None));
    NothingBefore(c, tables);
    NothingSeen(c, tables);
    hide Seen, Sorted, From, Request;
  }

  lemma {:induction false} SeenSoFar<R>(c: Client<R>, tables: seq<map<Key, R>>, n: nat)
    requires c.limit > 0 && n < |tables| && RoundTrips(c.codec) && Settled(c, tables)
    requires FullPages(n, c.limit) <= |Matching(tables[0], c.where, None)|
    ensures Continues(c, tables, n) && Accounted(c, tables, n)
    ensures |Sorted(Pending(c, tables, n))| == |Matching(tables[0], c.where, None)| - FullPages(n, c.limit)
  {
    if n == 0 {
      hide Accounted, Continues, Sorted, Matching;
      FirstRequest(c, tables);
    } else {
      hide *;
      FullPagesStep(n - 1, c.limit);
      SeenSoFar(c, tables, n - 1);
      SnapshotStep(c, tables, n - 1);
    }
  }

  /** With the rows below the cursor left alone, page after page the client sees exactly the tasks that
      matched at the first request, newest first, and the listing ends: the last page is the first one that
      is not full. */
  lemma ListsTheFirstSnapshot<R>(c: Client<R>, tables: seq<map<Key, R>>, n: nat)
    requires c.limit > 0 && 0 < n <= |tables| && RoundTrips(c.codec) && Settled(c, tables)
    requires FullPages(n - 1, c.limit) <= |Matching(tables[0], c.where, None)| < FullPages(n, c.limit)
    ensures Continues(c, tables, n - 1) && Request(c, tables, n - 1).next.None?
    ensures Seen(c, tables, n) == Sorted(Matching(tables[0], c.where, None))
  {
    var i := n - 1;
    hide Request, Continues, Pending, Seen, Sorted, Settled, Matching, FullPages;
    FullPagesStep(i, c.limit);
    SeenSoFar(c, tables, i);
    RequestMeaning(c, tables, i);
    var keys := Sorted(Pending(c, tables, i));
    assert keys[..|keys|] == keys;
    SeenSnoc(c, tables, i);
  }

  /** The reported total is not the number of matching tasks but what is left of them: each page lowers it
      by one page. */
  lemma TotalCountsWhatIsLeft<R>(c: Client<R>, tables: seq<map<Key, R>>, i: nat)
    requires c.limit > 0 && i < |tables| && RoundTrips(c.codec) && Settled(c, tables)
    requires FullPages(i, c.limit) <= |Matching(tables[0], c.where, None)|
    ensures Request(c, tables, i).total == |Matching(tables[0], c.where, None)| - FullPages(i, c.limit)
  {
    hide Request, Continues, Pending, Sorted, Settled, Matching, FullPages, Accounted;
    SeenSoFar(c, tables, i);
    RequestMeaning(c, tables, i);
  }
}
