/**
 * The comment ledger: an append-only SQLite table keyed by comment id, here an
 * in-memory class. The PRIMARY KEY on `id` makes a second insert of an id fail;
 * `first_seen_at` defaults to the current time of the ledger's clock.
 */
module Repository {
  import opened Wrappers
  import opened Types

  /** SQLite's `'-N days'` modifier moves the clock back N * 86400 seconds. */
  const SecondsPerDay := 86400

  /** The comment columns of a stored row. */
  function Unstamp(s: StoredComment): ScrapedComment
  {
    ScrapedComment(s.id, s.pageNumber, s.author, s.content, s.timestamp, s.parentId, s.url)
  }

  /** The row an `INSERT` writes: the comment as given, first seen at `at`. */
  function Stamp(c: ScrapedComment, at: int): (s: StoredComment)
    ensures Unstamp(s) == c && s.id == c.id && s.firstSeenAt == at
  {
    StoredComment(c.id, c.pageNumber, c.author, c.content, c.timestamp, c.parentId, c.url, at)
  }

  /** Every row sits under its own id. */
  ghost predicate Keyed(rows: map<int, StoredComment>)
  {
    forall id :: id in rows ==> rows[id].id == id
  }

  predicate NoRepeats(s: seq<int>)
  {
    forall i, j :: 0 <= i < j < |s| ==> s[i] != s[j]
  }

  function Ids(xs: seq<ScrapedComment>): (ids: seq<int>)
    ensures |ids| == |xs| && forall i :: 0 <= i < |xs| ==> ids[i] == xs[i].id
  {
    seq(|xs|, i requires 0 <= i < |xs| => xs[i].id)
  }

  /** A batch the transaction can commit: no id already stored and no id twice in the batch. */
  predicate BatchOk(rows: map<int, StoredComment>, xs: seq<ScrapedComment>)
  {
    forall i :: 0 <= i < |xs| ==> xs[i].id !in rows && forall j :: 0 <= j < i ==> xs[j].id != xs[i].id
  }

  /** The table after inserting every comment of `xs` in order, each first seen at `at`. */
  function InsertAll(rows: map<int, StoredComment>, xs: seq<ScrapedComment>, at: int): map<int, StoredComment>
    decreases |xs|
  {
    if xs == [] then rows
    else
      var last := xs[|xs| - 1];
      InsertAll(rows, xs[..|xs| - 1], at)[last.id := Stamp(last, at)]
  }

  /** Inserting adds exactly the batch's ids as keys. */
  lemma {:induction false} InsertAllKeys(rows: map<int, StoredComment>, xs: seq<ScrapedComment>, at: int)
    ensures forall id :: id in InsertAll(rows, xs, at) <==> id in rows || id in Ids(xs)
    decreases |xs|
  {
    if xs != [] {
      var init := xs[..|xs| - 1];
      InsertAllKeys(rows, init, at);
      assert Ids(xs) == Ids(init) + [xs[|xs| - 1].id];
    }
  }

  /** A committable batch leaves every earlier row as it was and stores each comment stamped `at`. */
  lemma {:induction false} InsertAllContents(rows: map<int, StoredComment>, xs: seq<ScrapedComment>, at: int)
    requires BatchOk(rows, xs)
    ensures forall id :: id in rows ==> id in InsertAll(rows, xs, at) && InsertAll(rows, xs, at)[id] == rows[id]
    ensures forall i :: 0 <= i < |xs| ==>
      xs[i].id in InsertAll(rows, xs, at) && InsertAll(rows, xs, at)[xs[i].id] == Stamp(xs[i], at)
    decreases |xs|
  {
    InsertAllKeys(rows, xs, at);
    if xs != [] {
      var init := xs[..|xs| - 1];
      var last := xs[|xs| - 1];
      assert BatchOk(rows, init);
      InsertAllContents(rows, init, at);
      InsertAllKeys(rows, init, at);
      forall i | 0 <= i < |xs|
        ensures InsertAll(rows, xs, at)[xs[i].id] == Stamp(xs[i], at)
      {
        if i < |init| {
          assert xs[i] == init[i];
        }
      }
    }
  }

  /** A committable batch grows the table by exactly its size. */
  lemma {:induction false} InsertAllCount(rows: map<int, StoredComment>, xs: seq<ScrapedComment>, at: int)
    requires BatchOk(rows, xs)
    ensures |InsertAll(rows, xs, at)| == |rows| + |xs|
    decreases |xs|
  {
    if xs != [] {
      var init := xs[..|xs| - 1];
      var last := xs[|xs| - 1];
      assert BatchOk(rows, init);
      InsertAllCount(rows, init, at);
      InsertAllKeys(rows, init, at);
      assert last.id !in Ids(init) by {
        forall k | 0 <= k < |init| ensures Ids(init)[k] != last.id {
          assert init[k] == xs[k];
        }
      }
    }
  }

  /** Keying by id survives inserts. */
  lemma {:induction false} InsertAllKeyed(rows: map<int, StoredComment>, xs: seq<ScrapedComment>, at: int)
    requires Keyed(rows)
    ensures Keyed(InsertAll(rows, xs, at))
    decreases |xs|
  {
    if xs != [] {
      InsertAllKeyed(rows, xs[..|xs| - 1], at);
    }
  }

  /**
   * Staging row i of a batch whose first i rows are accepted: the batch is refused
   * when its id is already staged, and otherwise its first i + 1 rows are accepted.
   */
  lemma StagingStep(rows: map<int, StoredComment>, xs: seq<ScrapedComment>, i: nat, at: int)
    requires i < |xs| && BatchOk(rows, xs[..i])
    ensures xs[i].id in InsertAll(rows, xs[..i], at) ==> !BatchOk(rows, xs)
    ensures xs[i].id !in InsertAll(rows, xs[..i], at) ==> BatchOk(rows, xs[..i + 1])
  {
    InsertAllKeys(rows, xs[..i], at);
    if xs[i].id in InsertAll(rows, xs[..i], at) {
      if xs[i].id !in rows {
        var j :| 0 <= j < i && Ids(xs[..i])[j] == xs[i].id;
        assert xs[j].id == xs[i].id;
      }
    } else {
      assert xs[..i + 1][..i] == xs[..i];
      forall j | 0 <= j < i ensures xs[j].id != xs[i].id {
        assert Ids(xs[..i])[j] == xs[j].id;
      }
    }
  }

  /** Committing a batch the table accepts keeps the rows keyed and in step with an order free of repeats. */
  lemma CommitKeepsValid(rows: map<int, StoredComment>, order: seq<int>, xs: seq<ScrapedComment>, at: int)
    requires Keyed(rows) && NoRepeats(order) && (forall id :: id in rows <==> id in order)
    requires BatchOk(rows, xs)
    ensures Keyed(InsertAll(rows, xs, at)) && NoRepeats(order + Ids(xs))
    ensures forall id :: id in InsertAll(rows, xs, at) <==> id in order + Ids(xs)
  {
    InsertAllKeyed(rows, xs, at);
    InsertAllKeys(rows, xs, at);
    ghost var ids := Ids(xs);
    assert forall k :: 0 <= k < |ids| ==> ids[k] !in order;
  }

  /** The comments of `xs` whose id is not stored, in input order, repeats kept. */
  function NewComments(rows: map<int, StoredComment>, xs: seq<ScrapedComment>): seq<ScrapedComment>
    decreases |xs|
  {
    if xs == [] then []
    else
      var last := xs[|xs| - 1];
      NewComments(rows, xs[..|xs| - 1]) + (if last.id in rows then [] else [last])
  }

  /** A comment is new exactly when it was scraped and its id is not stored. */
  lemma {:induction false} NewCommentsMembers(rows: map<int, StoredComment>, xs: seq<ScrapedComment>)
    ensures forall x :: x in NewComments(rows, xs) <==> x in xs && x.id !in rows
    decreases |xs|
  {
    if xs != [] {
      var init := xs[..|xs| - 1];
      NewCommentsMembers(rows, init);
      assert xs == init + [xs[|xs| - 1]];
    }
  }

  /** Filtering distributes over concatenation, so the input order is kept. */
  lemma {:induction false} NewCommentsAppend(rows: map<int, StoredComment>, xs: seq<ScrapedComment>, ys: seq<ScrapedComment>)
    ensures NewComments(rows, xs + ys) == NewComments(rows, xs) + NewComments(rows, ys)
    decreases |ys|
  {
    if ys != [] {
      var init := ys[..|ys| - 1];
      assert (xs + ys)[..|xs + ys| - 1] == xs + init;
      NewCommentsAppend(rows, xs, init);
    } else {
      assert xs + ys == xs;
    }
  }

  /** No de-duplication: a new comment appears as often as it was scraped. */
  lemma {:induction false} NewCommentsKeepsRepeats(rows: map<int, StoredComment>, xs: seq<ScrapedComment>, x: ScrapedComment)
    ensures multiset(NewComments(rows, xs))[x] == if x.id in rows then 0 else multiset(xs)[x]
    decreases |xs|
  {
    if xs != [] {
      var init := xs[..|xs| - 1];
      NewCommentsKeepsRepeats(rows, init, x);
      assert xs == init + [xs[|xs| - 1]];
    }
  }

  /** When every scraped id is stored, nothing is new. */
  lemma {:induction false} NewCommentsAllStored(rows: map<int, StoredComment>, xs: seq<ScrapedComment>)
    requires forall i :: 0 <= i < |xs| ==> xs[i].id in rows
    ensures NewComments(rows, xs) == []
    decreases |xs|
  {
    if xs != [] {
      NewCommentsAllStored(rows, xs[..|xs| - 1]);
    }
  }

  /** Once a batch is stored, none of it is new any more. */
  lemma NewCommentsAfterInsert(rows: map<int, StoredComment>, xs: seq<ScrapedComment>, at: int)
    ensures NewComments(InsertAll(rows, xs, at), xs) == []
  {
    InsertAllKeys(rows, xs, at);
    NewCommentsAllStored(InsertAll(rows, xs, at), xs);
  }

  /** After storing a scrape's new comments, a comment's id is stored exactly when it was stored before or scraped. */
  lemma StoredAfterNew(rows: map<int, StoredComment>, xs: seq<ScrapedComment>, at: int, id: int)
    ensures id in InsertAll(rows, NewComments(rows, xs), at) <==> id in rows || id in Ids(xs)
  {
    var unseen := NewComments(rows, xs);
    InsertAllKeys(rows, unseen, at);
    NewCommentsMembers(rows, xs);
    if id in Ids(xs) && id !in rows {
      var k :| 0 <= k < |xs| && Ids(xs)[k] == id;
      assert xs[k] in unseen;
      var m :| 0 <= m < |unseen| && unseen[m] == xs[k];
      assert Ids(unseen)[m] == id;
    }
    if id in Ids(unseen) {
      var m :| 0 <= m < |unseen| && Ids(unseen)[m] == id;
      assert unseen[m] in xs;
      var k :| 0 <= k < |xs| && xs[k] == unseen[m];
      assert Ids(xs)[k] == id;
    }
  }

  /**
   * Once a scrape's new comments are stored, a later scrape's new comments are
   * those whose id was neither stored before nor in the earlier scrape.
   */
  lemma NewAfterStoringNew(rows: map<int, StoredComment>, xs: seq<ScrapedComment>, ys: seq<ScrapedComment>,
                           at: int, y: ScrapedComment)
    ensures y in NewComments(InsertAll(rows, NewComments(rows, xs), at), ys) <==>
      y in ys && y.id !in rows && y.id !in Ids(xs)
  {
    NewCommentsMembers(InsertAll(rows, NewComments(rows, xs), at), ys);
    StoredAfterNew(rows, xs, at, y.id);
  }

  /** Storing a scrape's new comments leaves nothing of that scrape new. */
  lemma NothingNewAfterStoringNew(rows: map<int, StoredComment>, xs: seq<ScrapedComment>, at: int)
    ensures NewComments(InsertAll(rows, NewComments(rows, xs), at), xs) == []
  {
    var table := InsertAll(rows, NewComments(rows, xs), at);
    forall i | 0 <= i < |xs| ensures xs[i].id in table {
      assert Ids(xs)[i] == xs[i].id;
      StoredAfterNew(rows, xs, at, xs[i].id);
    }
    NewCommentsAllStored(table, xs);
  }

  /**
   * A scrape that repeats an unstored id yields a batch the ledger refuses; as
   * the refused batch changes nothing, the same scrape is refused every cycle.
   */
  lemma RepeatedIdIsRefused(rows: map<int, StoredComment>, xs: seq<ScrapedComment>, i: nat, j: nat)
    requires i < j < |xs| && xs[i].id == xs[j].id && xs[i].id !in rows
    ensures !BatchOk(rows, NewComments(rows, xs))
  {
    var front := NewComments(rows, xs[..j]);
    var back := NewComments(rows, xs[j + 1..]);
    assert xs == xs[..j] + [xs[j]] + xs[j + 1..];
    NewCommentsAppend(rows, xs[..j] + [xs[j]], xs[j + 1..]);
    NewCommentsAppend(rows, xs[..j], [xs[j]]);
    assert NewComments(rows, [xs[j]]) == [xs[j]];
    var all := NewComments(rows, xs);
    assert all == front + [xs[j]] + back;
    NewCommentsMembers(rows, xs[..j]);
    assert xs[i] in xs[..j];
    var p :| 0 <= p < |front| && front[p] == xs[i];
    assert all[p] == xs[i] && all[|front|] == xs[j];
  }

  /** Ids of rows first seen before `cutoff`. */
  function Expired(rows: map<int, StoredComment>, cutoff: int): set<int>
  {
    set id | id in rows && rows[id].firstSeenAt < cutoff
  }

  /** The table after `DELETE ... WHERE first_seen_at < cutoff`. */
  function Purge(rows: map<int, StoredComment>, cutoff: int): map<int, StoredComment>
  {
    map id | id in rows && rows[id].firstSeenAt >= cutoff :: rows[id]
  }

  /** Purging removes exactly the expired rows and leaves the others untouched. */
  lemma PurgeRemovesExpired(rows: map<int, StoredComment>, cutoff: int)
    ensures Purge(rows, cutoff).Keys == rows.Keys - Expired(rows, cutoff)
    ensures forall id :: id in Purge(rows, cutoff) ==> Purge(rows, cutoff)[id] == rows[id]
    ensures |Purge(rows, cutoff)| + |Expired(rows, cutoff)| == |rows|
  {
    var kept := Purge(rows, cutoff).Keys;
    var gone := Expired(rows, cutoff);
    assert kept == rows.Keys - gone;
    assert kept + gone == rows.Keys;
    assert kept !! gone;
    assert |kept + gone| == |kept| + |gone|;
  }

  /** The ids of `order` that are still rows, in the same order. */
  function KeepPresent(order: seq<int>, rows: map<int, StoredComment>): (r: seq<int>)
    ensures forall id :: id in r <==> id in order && id in rows
    ensures NoRepeats(order) ==> NoRepeats(r)
    decreases |order|
  {
    if order == [] then []
    else
      var init := order[..|order| - 1];
      var last := order[|order| - 1];
      assert order == init + [last];
      assert NoRepeats(order) ==> NoRepeats(init) && last !in init;
      KeepPresent(init, rows) + (if last in rows then [last] else [])
  }

  /** Purging the table and dropping the purged ids from the order keeps the ledger's invariant. */
  lemma PurgeKeepsInvariant(rows: map<int, StoredComment>, order: seq<int>, cutoff: int)
    requires Keyed(rows) && NoRepeats(order) && (forall id :: id in rows <==> id in order)
    ensures Keyed(Purge(rows, cutoff)) && NoRepeats(KeepPresent(order, Purge(rows, cutoff)))
    ensures forall id :: id in Purge(rows, cutoff) <==> id in KeepPresent(order, Purge(rows, cutoff))
  {
  }

  datatype InsertResult = Inserted | PrimaryKeyViolation(key: int)

  class Ledger {
    /** The table, keyed by comment id. */
    var rows: map<int, StoredComment>
    /** Ids in insertion order (kept for log readability). */
    var order: seq<int>
    /** The current time, in seconds; it stamps `firstSeenAt` and dates the purge cutoff. */
    var now: int

    ghost predicate Valid()
      reads this
    {
      Keyed(rows) && NoRepeats(order) && (forall id :: id in rows <==> id in order)
    }

    constructor (start: int)
      ensures Valid() && rows == map[] && order == [] && now == start
    {
      rows := map[];
      order := [];
      now := start;
    }

    /** Time passes. */
    method Tick(t: int)
      modifies this`now
      ensures now == t
    {
      now := t;
    }

    /** `commentExists`: whether a row with this id is stored. */
    function CommentExists(id: int): (b: bool)
      reads this
      ensures b <==> id in rows
    {
      id in rows
    }

    /** `getComment`: the stored row, or `None` for `null` when absent. */
    function GetComment(id: int): (r: Option<StoredComment>)
      reads this
      requires Valid()
      ensures r.None? <==> id !in rows
      ensures r.Some? ==> r.value.id == id && r.value == rows[id]
    {
      if id in rows then Some(rows[id]) else None
    }

    /** `getCommentCount`: `SELECT COUNT(*)`. */
    function GetCommentCount(): (n: nat)
      reads this
      ensures n == |rows.Keys|
    {
      |rows|
    }

    /** `insertComment`: one row stamped now, or a key violation with nothing changed. */
    method InsertComment(c: ScrapedComment) returns (r: InsertResult)
      requires Valid()
      modifies this`rows, this`order
      ensures Valid()
      ensures r == (if c.id in old(rows) then PrimaryKeyViolation(c.id) else Inserted)
      ensures r.Inserted? ==> rows == old(rows)[c.id := Stamp(c, now)] && order == old(order) + [c.id]
      ensures r.Inserted? ==> GetComment(c.id) == Some(Stamp(c, now))
      ensures r.PrimaryKeyViolation? ==> rows == old(rows) && order == old(order)
    {
      if c.id in rows {
        return PrimaryKeyViolation(c.id);
      }
      rows := rows[c.id := Stamp(c, now)];
      order := order + [c.id];
      r := Inserted;
    }

    /**
     * `insertComments`: all rows in one transaction. The batch is staged row by
     * row; the first id already staged aborts it and nothing is written.
     */
    method InsertComments(cs: seq<ScrapedComment>) returns (r: InsertResult)
      requires Valid()
      modifies this`rows, this`order
      ensures Valid()
      ensures r.Inserted? <==> BatchOk(old(rows), cs)
      ensures r.Inserted? ==> rows == InsertAll(old(rows), cs, now) && order == old(order) + Ids(cs)
      ensures r.PrimaryKeyViolation? ==> rows == old(rows) && order == old(order)
      ensures r.PrimaryKeyViolation? ==> exists i :: 0 <= i < |cs| && cs[i].id == r.key
    {
      if |cs| == 0 {
        return Inserted;
      }
      var staged := rows;
      var stagedOrder := order;
      var i := 0;
      while i < |cs|
        invariant 0 <= i <= |cs|
        invariant rows == old(rows) && order == old(order)
        invariant BatchOk(rows, cs[..i])
        invariant staged == InsertAll(rows, cs[..i], now)
        invariant stagedOrder == order + Ids(cs[..i])
      {
        StagingStep(rows, cs, i, now);
        if cs[i].id in staged {
          return PrimaryKeyViolation(cs[i].id);
        }
        assert cs[..i + 1][..i] == cs[..i];
        staged := staged[cs[i].id := Stamp(cs[i], now)];
        stagedOrder := stagedOrder + [cs[i].id];
        i := i + 1;
      }
      assert cs[..i] == cs;
      CommitKeepsValid(rows, order, cs, now);
      rows, order := staged, stagedOrder;
      r := Inserted;
    }

    /** `getNewComments`: the scraped comments whose id is not stored, in order. */
    method GetNewComments(xs: seq<ScrapedComment>) returns (unseen: seq<ScrapedComment>)
      ensures unseen == NewComments(rows, xs)
    {
      unseen := [];
      var i := 0;
      while i < |xs|
        invariant 0 <= i <= |xs|
        invariant unseen == NewComments(rows, xs[..i])
      {
        assert xs[..i + 1][..i] == xs[..i];
        if !CommentExists(xs[i].id) {
          unseen := unseen + [xs[i]];
        }
        i := i + 1;
      }
      assert xs[..i] == xs;
    }

    /** `deleteOldComments`: purge rows first seen more than `days` days ago; returns how many went. */
    method DeleteOldComments(days: nat) returns (removed: nat)
      requires Valid()
      modifies this`rows, this`order
      ensures Valid()
      ensures rows == Purge(old(rows), now - days * SecondsPerDay)
      ensures removed == |Expired(old(rows), now - days * SecondsPerDay)|
      ensures order == KeepPresent(old(order), rows)
    {
      var cutoff := now - days * SecondsPerDay;
      var table := rows;
      assert table == old(rows);
      PurgeKeepsInvariant(table, order, cutoff);
      var kept := Purge(table, cutoff);
      removed := |Expired(table, cutoff)|;
      rows, order := kept, KeepPresent(order, kept);
    }
  }
}
