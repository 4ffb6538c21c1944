/** The list query behind `GET /tasks`: keep the caller's rows that pass the
    optional status and title filters, order them newest first, and cut out
    one page. */
module TaskList {
  import opened Common
  import opened Validation
  import opened TaskTable

  // ---------------------------------------------------------------------
  // Case-insensitive title search

  /** ASCII lower-casing of one character. */
  function LowerChar(c: char): (r: char)
    ensures 'A' <= c <= 'Z' ==> r as int == c as int + 32
    ensures !('A' <= c <= 'Z') ==> r == c
    ensures !('A' <= r <= 'Z')
  {
    if 'A' <= c <= 'Z' then (c as int + 32) as char else c
  }

  /** ASCII lower-casing of a string, character by character. */
  function Lower(s: string): (r: string)
    ensures |r| == |s|
    ensures forall k :: 0 <= k < |s| ==> r[k] == LowerChar(s[k])
    decreases |s|
  {
    if s == [] then [] else [LowerChar(s[0])] + Lower(s[1..])
  }

  /** Lower-casing twice is lower-casing once. */
  lemma LowerIdempotent(s: string)
    ensures Lower(Lower(s)) == Lower(s)
  {
  }

  /** `needle` occurs in `hay` starting at offset `i`. */
  predicate OccursAt(hay: string, needle: string, i: nat)
  {
    i + |needle| <= |hay| && hay[i..i + |needle|] == needle
  }

  /** `needle` occurs somewhere in `hay` as a contiguous piece, tried offset
      by offset from the front. */
  predicate Contains(hay: string, needle: string): (r: bool)
    ensures r ==> |needle| <= |hay|
    ensures needle <= hay ==> r
    decreases |hay|
  {
    needle <= hay || (hay != [] && Contains(hay[1..], needle))
  }

  /** Every string contains the empty one. */
  lemma ContainsEmpty(hay: string)
    ensures Contains(hay, [])
  {
  }

  /** An occurrence at offset `i` is found. */
  lemma {:induction false} ContainsAt(hay: string, needle: string, i: nat)
    requires OccursAt(hay, needle, i)
    ensures Contains(hay, needle)
    decreases i
  {
    if i > 0 {
      assert hay[1..][i - 1..i - 1 + |needle|] == hay[i..i + |needle|];
      ContainsAt(hay[1..], needle, i - 1);
    }
  }

  /** A found occurrence sits at some offset. */
  lemma {:induction false} ContainsHasOffset(hay: string, needle: string) returns (i: nat)
    requires Contains(hay, needle)
    ensures OccursAt(hay, needle, i)
    decreases |hay|
  {
    if needle <= hay {
      i := 0;
    } else {
      var j := ContainsHasOffset(hay[1..], needle);
      i := j + 1;
      assert hay[i..i + |needle|] == hay[1..][j..j + |needle|];
    }
  }

  /** The offset-by-offset search finds exactly the texts that occur at some
      offset. */
  lemma ContainsIffOccurs(hay: string, needle: string)
    ensures Contains(hay, needle) <==> exists i: nat :: OccursAt(hay, needle, i)
  {
    if Contains(hay, needle) {
      var i := ContainsHasOffset(hay, needle);
    }
    if exists i: nat :: OccursAt(hay, needle, i) {
      var i: nat :| OccursAt(hay, needle, i);
      ContainsAt(hay, needle, i);
    }
  }

  /** `contains: search, mode: 'insensitive'` on the title. */
  predicate TitleMatches(title: string, search: string): (r: bool)
    ensures r <==> exists i: nat :: OccursAt(Lower(title), Lower(search), i)
    ensures search == [] ==> r
  {
    ContainsIffOccurs(Lower(title), Lower(search));
    Contains(Lower(title), Lower(search))
  }

  /** Letter case on either side never changes whether a title matches. */
  lemma SearchIgnoresCase(title: string, search: string)
    ensures TitleMatches(title, search) == TitleMatches(Lower(title), search)
    ensures TitleMatches(title, search) == TitleMatches(title, Lower(search))
  {
    LowerIdempotent(title);
    LowerIdempotent(search);
  }

  // ---------------------------------------------------------------------
  // Filtering

  /** The `where` object of `getTasks`: the owner always, the status and the
      title search when given. */
  datatype Criteria = Criteria(userId: UserId, status: Option<Status>, search: Option<string>)

  /** A row satisfies the `where` object. */
  predicate Matches(t: Task, c: Criteria): (r: bool)
    ensures r ==> t.userId == c.userId
    ensures c.status.None? && c.search.None? ==> (r <==> t.userId == c.userId)
    ensures c.status.Some? && r ==> t.status == c.status.value
    ensures c.search == Some([]) ==>
      (r <==> t.userId == c.userId && (c.status.Some? ==> t.status == c.status.value))
  {
    && t.userId == c.userId
    && (c.status.Some? ==> t.status == c.status.value)
    && (c.search.Some? ==> TitleMatches(t.title, c.search.value))
  }

  /** The rows satisfying `c`, each as often as the table holds it, in table
      order. */
  function Filter(rows: seq<Task>, c: Criteria): (r: seq<Task>)
    ensures forall t :: multiset(r)[t] == if Matches(t, c) then multiset(rows)[t] else 0
    ensures forall t :: t in r <==> t in rows && Matches(t, c)
    ensures |r| <= |rows|
    decreases |rows|
  {
    if rows == [] then []
    else
      assert rows == [rows[0]] + rows[1..];
      (if Matches(rows[0], c) then [rows[0]] else []) + Filter(rows[1..], c)
  }

  /** The filter only ever looks at the caller's own rows. */
  lemma {:induction false} FilterSeesOnlyOwner(rows: seq<Task>, c: Criteria)
    ensures Filter(rows, c) == Filter(OwnedBy(rows, c.userId), c)
    decreases |rows|
  {
    if rows != [] {
      FilterSeesOnlyOwner(rows[1..], c);
      if rows[0].userId == c.userId {
        assert OwnedBy(rows, c.userId)[1..] == OwnedBy(rows[1..], c.userId);
      }
    }
  }

  // ---------------------------------------------------------------------
  // Ordering: `orderBy: { createdAt: 'desc' }`

  /** Creation times never increase along the sequence. */
  predicate NewestFirst(s: seq<Task>)
  {
    forall i, j :: 0 <= i < j < |s| ==> s[i].createdAt >= s[j].createdAt
  }

  /** Whatever was created no later than `bound` stays so after being
      rearranged together with `t`. */
  lemma BoundedAfterInsert(t: Task, s: seq<Task>, rest: seq<Task>, bound: nat)
    requires multiset(rest) == multiset(s) + multiset{t}
    requires t.createdAt <= bound
    requires forall k :: 0 <= k < |s| ==> s[k].createdAt <= bound
    ensures forall j :: 0 <= j < |rest| ==> rest[j].createdAt <= bound
  {
    forall j | 0 <= j < |rest|
      ensures rest[j].createdAt <= bound
    {
      assert rest[j] in multiset(rest);
      if rest[j] != t {
        assert rest[j] in multiset(s);
        var k :| 0 <= k < |s| && s[k] == rest[j];
      }
    }
  }

  /** Insert `t` into a newest-first sequence, ahead of rows created at the
      same instant. */
  function InsertByDate(t: Task, s: seq<Task>): (r: seq<Task>)
    requires NewestFirst(s)
    ensures NewestFirst(r)
    ensures multiset(r) == multiset(s) + multiset{t}
    decreases |s|
  {
    if s == [] || t.createdAt >= s[0].createdAt then [t] + s
    else
      var rest := InsertByDate(t, s[1..]);
      assert s == [s[0]] + s[1..];
      BoundedAfterInsert(t, s[1..], rest, s[0].createdAt);
      [s[0]] + rest
  }

  /** The rows reordered newest first, a permutation of the input. */
  function SortNewestFirst(s: seq<Task>): (r: seq<Task>)
    ensures NewestFirst(r)
    ensures multiset(r) == multiset(s)
    ensures |r| == |s|
    decreases |s|
  {
    if s == [] then []
    else
      assert s == [s[0]] + s[1..];
      InsertByDate(s[0], SortNewestFirst(s[1..]))
  }

  // ---------------------------------------------------------------------
  // Pagination

  /** `skip` / `take`: at most `take` elements starting at offset `skip`. */
  function Window(s: seq<Task>, skip: nat, take: nat): (r: seq<Task>)
    ensures |r| <= take
    ensures skip < |s| ==> r != [] || take == 0
    ensures forall k :: 0 <= k < |r| ==> skip + k < |s| && r[k] == s[skip + k]
  {
    if skip >= |s| then [] else if skip + take >= |s| then s[skip..] else s[skip..skip + take]
  }

  /** The window holds the elements from `skip` on, and as many of them as
      there are, up to `take`. */
  lemma WindowShape(s: seq<Task>, skip: nat, take: nat)
    ensures |Window(s, skip, take)| == if skip >= |s| then 0 else if skip + take >= |s| then |s| - skip else take
    ensures forall k :: 0 <= k < |Window(s, skip, take)| ==> Window(s, skip, take)[k] == s[skip + k]
  {
  }

  /** A window of a newest-first sequence is newest first, and each of its
      elements comes from the sequence. */
  lemma WindowOfSorted(s: seq<Task>, skip: nat, take: nat)
    ensures NewestFirst(s) ==> NewestFirst(Window(s, skip, take))
    ensures forall t :: t in Window(s, skip, take) ==> t in s
  {
  }

  /** `Math.ceil(total / limit)`: the number of pages of `limit` rows that
      hold `total` rows. */
  function PageCount(total: nat, limit: nat): (r: nat)
    requires limit >= 1
    ensures r * limit >= total
    ensures r > 0 ==> (r - 1) * limit < total
    decreases total
  {
    if total == 0 then 0
    else if total <= limit then 1
    else 1 + PageCount(total - limit, limit)
  }
}
