/**
 * Score tables as the scenes keep them: lists of (name, score) pairs, ordered
 * with `list.sort(Comparator.comparingInt(getValue))` (a stable ascending
 * sort) followed by `Collections.reverse(list)`.
 */
module Ranking {

  /** A `Pair<String, Integer>` of a player name and a score. */
  datatype Entry = Entry(name: string, score: int)

  predicate Ascending(s: seq<Entry>) {
    forall i, j | 0 <= i < j < |s| :: s[i].score <= s[j].score
  }

  predicate NonIncreasing(s: seq<Entry>) {
    forall i, j | 0 <= i < j < |s| :: s[i].score >= s[j].score
  }

  /**
   * Inserts `e` into an ascending list after every entry whose score is not
   * above it, which is how a stable sort places a later element.
   */
  function InsertAscending(e: Entry, s: seq<Entry>): (r: seq<Entry>)
    requires Ascending(s)
    ensures |r| == |s| + 1
    ensures Ascending(r)
    ensures r[0] == e || (s != [] && r[0] == s[0])
  {
    if s == [] || e.score < s[0].score then [e] + s
    else
      var tail := InsertAscending(e, s[1..]);
      assert s[0].score <= tail[0].score;
      [s[0]] + tail
  }

  /** Insertion adds `e` and loses nothing. */
  lemma {:induction false} InsertPermutes(e: Entry, s: seq<Entry>)
    requires Ascending(s)
    ensures multiset(InsertAscending(e, s)) == multiset(s) + multiset{e}
  {
    if s != [] && e.score >= s[0].score {
      InsertPermutes(e, s[1..]);
      assert s == [s[0]] + s[1..];
    }
  }

  /** The stable ascending sort, by insertion in list order. */
  function SortAscending(s: seq<Entry>): (r: seq<Entry>)
    ensures |r| == |s|
    ensures multiset(r) == multiset(s)
    ensures Ascending(r)
  {
    if s == [] then []
    else
      assert s == s[..|s| - 1] + [s[|s| - 1]];
      InsertPermutes(s[|s| - 1], SortAscending(s[..|s| - 1]));
      InsertAscending(s[|s| - 1], SortAscending(s[..|s| - 1]))
  }

  /** `Collections.reverse`. */
  function Reverse(s: seq<Entry>): (r: seq<Entry>)
    ensures |r| == |s|
    ensures forall i | 0 <= i < |s| :: r[i] == s[|s| - 1 - i]
  {
    if s == [] then [] else Reverse(s[1..]) + [s[0]]
  }

  lemma {:induction false} ReversePermutes(s: seq<Entry>)
    ensures multiset(Reverse(s)) == multiset(s)
  {
    if s != [] {
      ReversePermutes(s[1..]);
      assert s == [s[0]] + s[1..];
    }
  }

  /** Sort ascending, then reverse: the order both score tables are shown in. */
  function SortDescending(s: seq<Entry>): (r: seq<Entry>)
    ensures |r| == |s|
    ensures multiset(r) == multiset(s)
    ensures NonIncreasing(r)
  {
    var up := SortAscending(s);
    ReversePermutes(up);
    Reverse(up)
  }

  /** How many entries score strictly below `score`. */
  function Below(s: seq<Entry>, score: int): (n: nat)
    ensures n <= |s|
  {
    if s == [] then 0
    else Below(s[..|s| - 1], score) + (if s[|s| - 1].score < score then 1 else 0)
  }

  /**
   * In a non-increasing table the entries below `score` are exactly the last
   * `Below(s, score)` ones.
   */
  lemma {:induction false} BelowIsSuffix(s: seq<Entry>, score: int)
    requires NonIncreasing(s)
    ensures forall i | 0 <= i < |s| :: i >= |s| - Below(s, score) <==> s[i].score < score
  {
    if s != [] {
      var init := s[..|s| - 1];
      BelowIsSuffix(init, score);
      forall i | 0 <= i < |s|
        ensures i >= |s| - Below(s, score) <==> s[i].score < score
      {
        if i < |s| - 1 {
          assert s[i] == init[i];
          if s[|s| - 1].score >= score {
            assert s[i].score >= s[|s| - 1].score;
          }
        }
      }
    }
  }
}
