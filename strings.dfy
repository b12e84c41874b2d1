/**
 * The few java.lang.String and java.lang.Integer operations the game's
 * message and file handling relies on: `indexOf`/`contains`, `replaceFirst`
 * (with a pattern free of regular-expression metacharacters), `split` (on one
 * character, or on runs of characters from a set), `Integer.valueOf` and
 * `Integer.toString`.
 */
module Strings {
  import opened Optional

  /** `t` occurs in `s` starting at index `k`. */
  predicate OccursAt(s: string, t: string, k: int) {
    0 <= k && k + |t| <= |s| && s[k..k + |t|] == t
  }

  /** The first index at or after `from` where `t` occurs in `s`. */
  function IndexFrom(s: string, t: string, from: nat): (r: Option<nat>)
    ensures r.Some? ==> from <= r.value && OccursAt(s, t, r.value)
    ensures r.Some? ==> forall k | from <= k < r.value :: !OccursAt(s, t, k)
    ensures r.None? ==> forall k | from <= k :: !OccursAt(s, t, k)
    decreases |s| - from
  {
    if from + |t| > |s| then None
    else if s[from..from + |t|] == t then Some(from)
    else IndexFrom(s, t, from + 1)
  }

  /** `s.indexOf(t)`, with None for Java's -1. */
  function IndexOf(s: string, t: string): Option<nat> {
    IndexFrom(s, t, 0)
  }

  /** `s.contains(t)`. */
  function Contains(s: string, t: string): (b: bool)
    ensures b <==> exists k :: OccursAt(s, t, k)
  {
    IndexOf(s, t).Some?
  }

  /**
   * `s.replaceFirst(t, rep)` for a literal pattern `t`: the first occurrence
   * of `t` is replaced, and a string without `t` comes back as it was.
   */
  function ReplaceFirst(s: string, t: string, rep: string): (r: string)
    ensures !Contains(s, t) ==> r == s
  {
    match IndexOf(s, t)
    case None => s
    case Some(i) => s[..i] + rep + s[i + |t|..]
  }

  /** Removing a leading `t` leaves exactly what followed it. */
  lemma ReplaceFirstLeading(t: string, u: string)
    ensures Contains(t + u, t)
    ensures ReplaceFirst(t + u, t, "") == u
  {
    assert (t + u)[0..|t|] == t;
    assert OccursAt(t + u, t, 0);
  }

  /** A string that starts with `t` contains every prefix `p` of `t`. */
  lemma ContainsLeading(t: string, u: string, p: string)
    requires |p| <= |t| && t[..|p|] == p
    ensures Contains(t + u, p)
  {
    assert (t + u)[0..|p|] == p;
    assert OccursAt(t + u, p, 0);
  }

  // ---------------------------------------------------------------------
  // Splitting

  /** The pieces of `s` between single occurrences of `c`, empty pieces kept. */
  function Pieces(s: string, c: char): (r: seq<string>)
    ensures |r| >= 1
  {
    if s == [] then [[]]
    else
      var rest := Pieces(s[1..], c);
      if s[0] == c then [[]] + rest else [[s[0]] + rest[0]] + rest[1..]
  }

  /** The pieces of `s` between maximal runs of characters of `delims`. */
  function RunPieces(s: string, delims: set<char>): (r: seq<string>)
    ensures |r| >= 1
  {
    if s == [] then [[]]
    else
      var rest := RunPieces(s[1..], delims);
      if s[0] in delims then
        if |s| > 1 && s[1] in delims then rest else [[]] + rest
      else [[s[0]] + rest[0]] + rest[1..]
  }

  /** Java's split drops the empty strings at the end of its result. */
  function DropTrailingEmpty(ps: seq<string>): (r: seq<string>)
    ensures |r| <= |ps| && r == ps[..|r|]
    ensures r == [] || r[|r| - 1] != []
    ensures forall i | |r| <= i < |ps| :: ps[i] == []
  {
    if ps == [] then []
    else if ps[|ps| - 1] == [] then DropTrailingEmpty(ps[..|ps| - 1])
    else ps
  }

  predicate FreeOf(s: string, delims: set<char>) {
    forall i | 0 <= i < |s| :: s[i] !in delims
  }

  lemma FreeOfConcat(s: string, t: string, delims: set<char>)
    requires FreeOf(s, delims) && FreeOf(t, delims)
    ensures FreeOf(s + t, delims)
  {
    forall i | |s| <= i < |s + t|
      ensures (s + t)[i] !in delims
    {
      assert (s + t)[i] == t[i - |s|];
    }
  }

  /**
   * `s.split(":")` for the one-character pattern `c`: a string without `c`
   * is returned whole (even the empty string); otherwise the pieces, with
   * trailing empty ones dropped.
   */
  function SplitChar(s: string, c: char): seq<string> {
    if FreeOf(s, {c}) then [s] else DropTrailingEmpty(Pieces(s, c))
  }

  /** `s.split("[...]+")`: the same, splitting at runs of `delims`. */
  function SplitRuns(s: string, delims: set<char>): seq<string> {
    if FreeOf(s, delims) then [s] else DropTrailingEmpty(RunPieces(s, delims))
  }

  /** The separators of the score messages: `split("[\n:]+")`. */
  const FieldBreaks: set<char> := {'\n', ':'}

  lemma {:induction false} PiecesFree(s: string, c: char)
    requires FreeOf(s, {c})
    ensures Pieces(s, c) == [s]
  {
    if s != [] {
      assert s[0] !in {c};
      assert FreeOf(s[1..], {c}) by {
        forall i | 0 <= i < |s[1..]| ensures s[1..][i] !in {c} {
          assert s[1..][i] == s[i + 1];
        }
      }
      PiecesFree(s[1..], c);
      assert [s[0]] + s[1..] == s;
    }
  }

  lemma {:induction false} PiecesAfter(a: string, c: char, b: string)
    requires FreeOf(a, {c})
    ensures Pieces(a + [c] + b, c) == [a] + Pieces(b, c)
  {
    if a == [] {
      assert a + [c] + b == [c] + b;
      assert ([c] + b)[1..] == b;
    } else {
      assert (a + [c] + b)[1..] == a[1..] + [c] + b;
      assert (a + [c] + b)[0] == a[0] && a[0] !in {c};
      assert FreeOf(a[1..], {c}) by {
        forall i | 0 <= i < |a[1..]| ensures a[1..][i] !in {c} {
          assert a[1..][i] == a[i + 1];
        }
      }
      PiecesAfter(a[1..], c, b);
      assert [a[0]] + a[1..] == a;
    }
  }

  /** A `key:value` line splits back into its key and its value. */
  lemma SplitCharPair(a: string, c: char, b: string)
    requires FreeOf(a, {c}) && FreeOf(b, {c}) && b != []
    ensures SplitChar(a + [c] + b, c) == [a, b]
  {
    var s := a + [c] + b;
    assert s[|a|] == c;
    PiecesAfter(a, c, b);
    PiecesFree(b, c);
    assert Pieces(s, c) == [a, b];
  }

  /** Tokens `ts` joined with the separator characters `seps` between them. */
  function Join(ts: seq<string>, seps: seq<char>): string
    requires |ts| >= 1 && |seps| == |ts| - 1
  {
    if |ts| == 1 then ts[0] else ts[0] + [seps[0]] + Join(ts[1..], seps[1..])
  }

  /** Every token is non-empty and holds no separator. */
  predicate PlainTokens(ts: seq<string>, delims: set<char>) {
    forall i | 0 <= i < |ts| :: ts[i] != [] && FreeOf(ts[i], delims)
  }

  lemma {:induction false} RunPiecesFree(s: string, delims: set<char>)
    requires FreeOf(s, delims)
    ensures RunPieces(s, delims) == [s]
  {
    if s != [] {
      assert s[0] !in delims;
      assert FreeOf(s[1..], delims) by {
        forall i | 0 <= i < |s[1..]| ensures s[1..][i] !in delims {
          assert s[1..][i] == s[i + 1];
        }
      }
      RunPiecesFree(s[1..], delims);
      assert [s[0]] + s[1..] == s;
    }
  }

  lemma {:induction false} RunPiecesAfter(a: string, sep: char, b: string, delims: set<char>)
    requires FreeOf(a, delims) && sep in delims
    requires b == [] || b[0] !in delims
    ensures RunPieces(a + [sep] + b, delims) == [a] + RunPieces(b, delims)
  {
    if a == [] {
      assert a + [sep] + b == [sep] + b;
      assert ([sep] + b)[1..] == b;
    } else {
      assert (a + [sep] + b)[1..] == a[1..] + [sep] + b;
      assert (a + [sep] + b)[0] == a[0] && a[0] !in delims;
      assert FreeOf(a[1..], delims) by {
        forall i | 0 <= i < |a[1..]| ensures a[1..][i] !in delims {
          assert a[1..][i] == a[i + 1];
        }
      }
      RunPiecesAfter(a[1..], sep, b, delims);
      assert [a[0]] + a[1..] == a;
    }
  }

  lemma {:induction false} JoinShape(ts: seq<string>, seps: seq<char>, delims: set<char>)
    requires |ts| >= 1 && |seps| == |ts| - 1 && PlainTokens(ts, delims)
    requires forall i | 0 <= i < |seps| :: seps[i] in delims
    ensures Join(ts, seps) != [] && Join(ts, seps)[0] == ts[0][0]
    ensures RunPieces(Join(ts, seps), delims) == ts
    ensures |ts| == 1 <==> FreeOf(Join(ts, seps), delims)
  {
    if |ts| == 1 {
      RunPiecesFree(ts[0], delims);
    } else {
      var rest := Join(ts[1..], seps[1..]);
      JoinShape(ts[1..], seps[1..], delims);
      RunPiecesAfter(ts[0], seps[0], rest, delims);
      var s := ts[0] + [seps[0]] + rest;
      assert s[|ts[0]|] == seps[0];
      assert [ts[0]] + ts[1..] == ts;
    }
  }

  /**
   * Splitting at runs of separators recovers the tokens that were joined,
   * provided every token is non-empty and separator-free.
   */
  lemma SplitRunsJoin(ts: seq<string>, seps: seq<char>, delims: set<char>)
    requires |ts| >= 1 && |seps| == |ts| - 1 && PlainTokens(ts, delims)
    requires forall i | 0 <= i < |seps| :: seps[i] in delims
    ensures SplitRuns(Join(ts, seps), delims) == ts
  {
    JoinShape(ts, seps, delims);
  }

  /**
   * A message made of a header that starts with the command word `tag`,
   * followed by plain tokens joined with separators, mentions the word;
   * removing the first header and splitting the rest at runs of ':' and
   * '\n' gives back the tokens.
   */
  lemma TaggedTokens(header: string, tag: string, ts: seq<string>, seps: seq<char>)
    requires |tag| <= |header| && header[..|tag|] == tag
    requires |ts| >= 1 && |seps| == |ts| - 1 && PlainTokens(ts, FieldBreaks)
    requires forall i | 0 <= i < |seps| :: seps[i] in FieldBreaks
    ensures Contains(header + Join(ts, seps), tag)
    ensures SplitRuns(ReplaceFirst(header + Join(ts, seps), header, ""), FieldBreaks) == ts
  {
    var body := Join(ts, seps);
    ReplaceFirstLeading(header, body);
    ContainsLeading(header, body, tag);
    SplitRunsJoin(ts, seps, FieldBreaks);
  }

  // ---------------------------------------------------------------------
  // Integers

  const IntMin: int := -0x8000_0000
  const IntMax: int := 0x7fff_ffff

  predicate IsInt32(n: int) {
    IntMin <= n <= IntMax
  }

  predicate IsDigit(ch: char) {
    '0' <= ch <= '9'
  }

  predicate IsDigits(s: string) {
    |s| > 0 && forall i | 0 <= i < |s| :: IsDigit(s[i])
  }

  /** The value of a run of decimal digits, most significant first. */
  function DigitsValue(s: string): nat
    requires forall i | 0 <= i < |s| :: IsDigit(s[i])
  {
    if s == [] then 0
    else
      assert IsDigit(s[|s| - 1]);
      DigitsValue(s[..|s| - 1]) * 10 + (s[|s| - 1] as int - '0' as int)
  }

  /**
   * `Integer.valueOf(s)` restricted to ASCII digits: an optional sign
   * followed by at least one digit '0'..'9', within the 32-bit range, and
   * None otherwise. Java also accepts the other Unicode decimal digits,
   * which this function rejects.
   */
  function ParseInt(s: string): Option<int> {
    if |s| > 0 && (s[0] == '-' || s[0] == '+') then
      if IsDigits(s[1..]) then
        var v: int := if s[0] == '-' then -(DigitsValue(s[1..]) as int) else DigitsValue(s[1..]);
        if IsInt32(v) then Some(v) else None
      else None
    else if IsDigits(s) then
      var v := DigitsValue(s);
      if IsInt32(v) then Some(v) else None
    else None
  }

  function DigitChar(d: nat): char
    requires d < 10
  {
    ('0' as int + d) as char
  }

  /** The decimal digits of `n`, without leading zeros. */
  function NatToString(n: nat): string
    decreases n
  {
    if n < 10 then [DigitChar(n)] else NatToString(n / 10) + [DigitChar(n % 10)]
  }

  /** `Integer.toString(n)`, also what `"" + n` produces. */
  function IntToString(n: int): string {
    if n < 0 then "-" + NatToString(-n) else NatToString(n)
  }

  lemma {:induction false} NatToStringDigits(n: nat)
    ensures IsDigits(NatToString(n))
    ensures DigitsValue(NatToString(n)) == n
    decreases n
  {
    if n >= 10 {
      NatToStringDigits(n / 10);
      var s := NatToString(n);
      assert s[..|s| - 1] == NatToString(n / 10);
    }
  }

  /** Reading back what `Integer.toString` wrote gives the same number. */
  lemma ParseIntToString(n: int)
    requires IsInt32(n)
    ensures ParseInt(IntToString(n)) == Some(n)
  {
    if n < 0 {
      NatToStringDigits(-n);
      assert IntToString(n)[1..] == NatToString(-n);
    } else {
      NatToStringDigits(n);
    }
  }

  /** Printed integers are non-empty and never hold a separator character. */
  lemma IntToStringPlain(n: int, delims: set<char>)
    requires '-' !in delims && forall ch | ch in delims :: !IsDigit(ch)
    ensures IntToString(n) != [] && FreeOf(IntToString(n), delims)
  {
    var m := if n < 0 then -n else n;
    NatToStringDigits(m);
  }
}
