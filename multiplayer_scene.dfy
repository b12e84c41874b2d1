/**
 * The message side of the multiplayer screen: the chat line and the live
 * leaderboard, rebuilt from each `SCORES` message the server sends.
 */
module LiveLeaderboard {
  import opened Strings
  import opened Ranking

  /** A `Pair<String, String>` of a player name and the status the server reports. */
  datatype Status = Status(name: string, status: string)

  /** One player as the server lists them: name, score and status. */
  datatype Player = Player(name: string, score: int, status: string)

  /** The tokens of a `SCORES` message: the rest after "SCORES ", split at runs of separators. */
  function LeaderboardTokens(message: string): seq<string> {
    SplitRuns(ReplaceFirst(message, "SCORES ", ""), FieldBreaks)
  }

  /** Tokens that group as (name, number, status): a multiple of three, each second one a number. */
  predicate WellFormedTriples(ts: seq<string>)
    decreases |ts|
  {
    if ts == [] then true
    else |ts| >= 3 && ParseInt(ts[1]).Some? && WellFormedTriples(ts[3..])
  }

  /** The score entries the draining loop adds, one per triple, in message order. */
  function Triples(ts: seq<string>): (r: seq<Entry>)
    requires WellFormedTriples(ts)
    ensures |r| == |ts| / 3
    decreases |ts|
  {
    if ts == [] then []
    else [Entry(ts[0], ParseInt(ts[1]).value)] + Triples(ts[3..])
  }

  /** The (name, status) pairs of the triples whose status mentions "DEAD", in message order. */
  function DeadStatuses(ts: seq<string>): (r: seq<Status>)
    requires WellFormedTriples(ts)
    ensures |r| <= |ts| / 3
    ensures forall i | 0 <= i < |r| :: Contains(r[i].status, "DEAD")
    decreases |ts|
  {
    if ts == [] then []
    else (if Contains(ts[2], "DEAD") then [Status(ts[0], ts[2])] else []) + DeadStatuses(ts[3..])
  }

  /** Every player reported dead also has a score entry under the same name. */
  lemma {:induction false} DeadAreListed(ts: seq<string>)
    requires WellFormedTriples(ts)
    ensures forall d | d in DeadStatuses(ts) :: exists e | e in Triples(ts) :: e.name == d.name
    decreases |ts|
  {
    if ts != [] {
      DeadAreListed(ts[3..]);
      var head := Entry(ts[0], ParseInt(ts[1]).value);
      assert Triples(ts) == [head] + Triples(ts[3..]);
      forall d | d in DeadStatuses(ts)
        ensures exists e | e in Triples(ts) :: e.name == d.name
      {
        if d in DeadStatuses(ts[3..]) {
          var e :| e in Triples(ts[3..]) && e.name == d.name;
          assert e in Triples(ts);
        } else {
          assert head in Triples(ts);
        }
      }
    }
  }

  /** Names, scores and statuses, player by player. */
  function Interleave(players: seq<Player>): (r: seq<string>)
    ensures |r| == 3 * |players|
  {
    if players == [] then []
    else [players[0].name, IntToString(players[0].score), players[0].status] + Interleave(players[1..])
  }

  /** ':' after each name and score, '\n' after each status but the last. */
  function Separators(n: nat): (r: seq<char>)
    requires n >= 1
    ensures |r| == 3 * n - 1
    ensures forall i | 0 <= i < |r| :: r[i] in FieldBreaks
  {
    if n == 1 then [':', ':'] else [':', ':', '\n'] + Separators(n - 1)
  }

  /** A `SCORES` message listing `players` as `name:score:status` lines. */
  function ScoresMessage(players: seq<Player>): string
    requires players != []
  {
    "SCORES " + Join(Interleave(players), Separators(|players|))
  }

  /** The score entries of `players`, in order. */
  function Standings(players: seq<Player>): (r: seq<Entry>)
    ensures |r| == |players|
  {
    if players == [] then [] else [Entry(players[0].name, players[0].score)] + Standings(players[1..])
  }

  /** The players whose status mentions "DEAD", in order. */
  function Fallen(players: seq<Player>): seq<Status> {
    if players == [] then []
    else
      (if Contains(players[0].status, "DEAD") then [Status(players[0].name, players[0].status)] else [])
      + Fallen(players[1..])
  }

  /** A player the message format carries intact: non-empty name and status without ':' or '\n'. */
  predicate SendablePlayer(p: Player) {
    && p.name != [] && FreeOf(p.name, FieldBreaks)
    && p.status != [] && FreeOf(p.status, FieldBreaks)
    && IsInt32(p.score)
  }

  lemma {:induction false} TriplesInterleave(players: seq<Player>)
    requires forall i | 0 <= i < |players| :: IsInt32(players[i].score)
    ensures WellFormedTriples(Interleave(players))
    ensures Triples(Interleave(players)) == Standings(players)
    ensures DeadStatuses(Interleave(players)) == Fallen(players)
  {
    if players != [] {
      TriplesInterleave(players[1..]);
      ParseIntToString(players[0].score);
      var ts := Interleave(players);
      assert ts[3..] == Interleave(players[1..]);
    }
  }

  lemma {:induction false} InterleavePlain(players: seq<Player>)
    requires forall i | 0 <= i < |players| :: SendablePlayer(players[i])
    ensures PlainTokens(Interleave(players), FieldBreaks)
  {
    if players != [] {
      InterleavePlain(players[1..]);
      IntToStringPlain(players[0].score, FieldBreaks);
      var ts := Interleave(players);
      forall i | 0 <= i < |ts|
        ensures ts[i] != [] && FreeOf(ts[i], FieldBreaks)
      {
        if i >= 3 {
          assert ts[i] == Interleave(players[1..])[i - 3];
        }
      }
    }
  }

  /**
   * A `SCORES` message listing sendable players is acted on, yields one score
   * entry per player, and reports exactly the dead ones.
   */
  lemma LeaderboardRoundTrip(players: seq<Player>)
    requires players != []
    requires forall i | 0 <= i < |players| :: SendablePlayer(players[i])
    ensures Contains(ScoresMessage(players), "SCORES")
    ensures WellFormedTriples(LeaderboardTokens(ScoresMessage(players)))
    ensures Triples(LeaderboardTokens(ScoresMessage(players))) == Standings(players)
    ensures DeadStatuses(LeaderboardTokens(ScoresMessage(players))) == Fallen(players)
  {
    ScoresMessageMentions(players);
    ScoresMessageTokens(players);
    TriplesInterleave(players);
  }

  /** A `SCORES` message mentions the word it is acted on for. */
  lemma ScoresMessageMentions(players: seq<Player>)
    requires players != []
    ensures Contains(ScoresMessage(players), "SCORES")
  {
    var body := Join(Interleave(players), Separators(|players|));
    assert "SCORES "[..6] == "SCORES";
    ContainsLeading("SCORES ", body, "SCORES");
  }

  /** The tokens of a `SCORES` message of sendable players are their fields, in order. */
  lemma ScoresMessageTokens(players: seq<Player>)
    requires players != []
    requires forall i | 0 <= i < |players| :: SendablePlayer(players[i])
    ensures LeaderboardTokens(ScoresMessage(players)) == Interleave(players)
  {
    InterleavePlain(players);
    ScoresTokens(Interleave(players), Separators(|players|));
  }

  /** "SCORES " followed by plain tokens joined with separators splits back into those tokens. */
  lemma ScoresTokens(ts: seq<string>, seps: seq<char>)
    requires |ts| >= 1 && |seps| == |ts| - 1 && PlainTokens(ts, FieldBreaks)
    requires forall i | 0 <= i < |seps| :: seps[i] in FieldBreaks
    ensures LeaderboardTokens("SCORES " + Join(ts, seps)) == ts
  {
    assert "SCORES "[..6] == "SCORES";
    TaggedTokens("SCORES ", "SCORES", ts, seps);
  }

  /** Taking one triple off the head of the tokens moves its score entry to the end of the list built so far. */
  lemma EntryStep(done: seq<Entry>, ts: seq<string>)
    requires WellFormedTriples(ts) && ts != []
    ensures WellFormedTriples(ts[3..])
    ensures done + Triples(ts) == (done + [Entry(ts[0], ParseInt(ts[1]).value)]) + Triples(ts[3..])
  {
    var e := Entry(ts[0], ParseInt(ts[1]).value);
    var rest := Triples(ts[3..]);
    assert Triples(ts) == [e] + rest;
    assert done + ([e] + rest) == (done + [e]) + rest;
  }

  /** Likewise for its (name, status) pair, when the status mentions "DEAD". */
  lemma StatusStep(dead: seq<Status>, ts: seq<string>)
    requires WellFormedTriples(ts) && ts != []
    ensures Contains(ts[2], "DEAD") ==> dead + DeadStatuses(ts) == (dead + [Status(ts[0], ts[2])]) + DeadStatuses(ts[3..])
    ensures !Contains(ts[2], "DEAD") ==> dead + DeadStatuses(ts) == dead + DeadStatuses(ts[3..])
  {
    if Contains(ts[2], "DEAD") {
      var a := Status(ts[0], ts[2]);
      assert DeadStatuses(ts) == [a] + DeadStatuses(ts[3..]);
    } else {
      assert DeadStatuses(ts) == DeadStatuses(ts[3..]);
    }
  }

  /** The text a chat message shows: the message with its first "MSG " removed. */
  function ChatText(message: string): string {
    ReplaceFirst(message, "MSG ", "")
  }

  /** A chat message `"MSG " + text` is acted on and shows exactly `text`. */
  lemma ChatRoundTrip(text: string)
    ensures Contains("MSG " + text, "MSG")
    ensures ChatText("MSG " + text) == text
  {
    ReplaceFirstLeading("MSG ", text);
    ContainsLeading("MSG ", text, "MSG");
  }

  class MultiplayerScene {
    /** The chat line shown on screen. */
    var chat: string
    var scores: seq<Entry>
    var livingStatus: seq<Status>
    /** Every message sent to the server so far, oldest first. */
    var sent: seq<string>

    constructor ()
      ensures chat == "Press <T> to chat" && scores == [] && livingStatus == [] && sent == []
    {
      chat := "Press <T> to chat";
      scores := [];
      livingStatus := [];
      sent := [];
    }

    /**
     * A message mentioning "MSG" becomes the chat line; one mentioning
     * "SCORES" rebuilds the leaderboard; a message may do both, or neither.
     */
    method ReceiveCommunication(message: string)
      requires Contains(message, "SCORES") ==> WellFormedTriples(LeaderboardTokens(message))
      modifies this`chat, this`scores, this`livingStatus
      ensures chat == if Contains(message, "MSG") then ChatText(message) else old(chat)
      ensures !Contains(message, "SCORES") ==> scores == old(scores) && livingStatus == old(livingStatus)
      ensures Contains(message, "SCORES") ==> scores == SortDescending(Triples(LeaderboardTokens(message)))
      ensures Contains(message, "SCORES") ==> livingStatus == DeadStatuses(LeaderboardTokens(message))
    {
      if Contains(message, "MSG") {
        var message1 := ReplaceFirst(message, "MSG ", "");
        ReceiveChat(message1);
      }
      if Contains(message, "SCORES") {
        DisplayLeaderboard(message);
      }
    }

    method ReceiveChat(mssg: string)
      modifies this`chat
      ensures chat == mssg
    {
      chat := mssg;
    }

    /** Asks the server for the current scores. */
    method GetUserScores()
      modifies this`sent
      ensures sent == old(sent) + ["SCORES"]
    {
      sent := sent + ["SCORES"];
    }

    /**
     * Replaces both lists with what `message` reports: one score entry per
     * (name, score, status) triple, ordered by descending score, and the
     * dead players in message order.
     */
    method DisplayLeaderboard(message: string)
      requires WellFormedTriples(LeaderboardTokens(message))
      modifies this`scores, this`livingStatus
      ensures scores == SortDescending(Triples(LeaderboardTokens(message)))
      ensures livingStatus == DeadStatuses(LeaderboardTokens(message))
    {
      var message1 := ReplaceFirst(message, "SCORES ", "");
      var arrList := SplitRuns(message1, FieldBreaks);
      ghost var tokens := arrList;
      assert tokens == LeaderboardTokens(message);
      scores := [];
      livingStatus := [];
      while arrList != []
        invariant WellFormedTriples(arrList)
        invariant scores + Triples(arrList) == Triples(tokens)
        invariant livingStatus + DeadStatuses(arrList) == DeadStatuses(tokens)
        decreases |arrList|
      {
        var score := Entry(arrList[0], ParseInt(arrList[1]).value);
        var alive := Status(arrList[0], arrList[2]);
        var rest := arrList[3..];
        EntryStep(scores, arrList);
        StatusStep(livingStatus, arrList);
        scores := scores + [score];
        if Contains(alive.status, "DEAD") {
          livingStatus := livingStatus + [alive];
        }
        arrList := rest;
      }
      assert scores + Triples(arrList) == scores;
      assert livingStatus + DeadStatuses(arrList) == livingStatus;
      SortScores();
    }

    /** `scores.sort` by ascending score, then `Collections.reverse(scores)`. */
    method SortScores()
      modifies this`scores
      ensures scores == SortDescending(old(scores))
    {
      scores := SortAscending(scores);
      scores := Reverse(scores);
    }
  }
}
