/** The player profile and the leaderboard of at most fifty players, sorted
    by best score. The stored copies are plain values here: the game reads
    the leaderboard, changes it and writes it back. */
module Rankings {
  import opened Scoring

  datatype Option<T> = None | Some(value: T)

  datatype Profile = Profile(name: string, avatar: string, bestScore: int, totalGames: nat)

  datatype Entry = Entry(name: string, avatar: string, bestScore: int, totalGames: nat)

  const MaxRankings := 50

  /** `updateScoreAndSave` on the profile: the best score is raised to this
      game's score if that is higher, and one more game is counted. */
  function RecordGame(p: Profile, score: int): (q: Profile)
    ensures q.name == p.name && q.avatar == p.avatar
    ensures q.bestScore >= p.bestScore && q.bestScore >= score
    ensures q.bestScore == p.bestScore || q.bestScore == score
    ensures q.totalGames == p.totalGames + 1
  {
    p.(bestScore := if score > p.bestScore then score else p.bestScore, totalGames := p.totalGames + 1)
  }

  /** `findIndex` on the name: the first entry with that name. */
  function FindByName(entries: seq<Entry>, name: string): (r: Option<nat>)
    ensures r.Some? ==> r.value < |entries| && entries[r.value].name == name
    ensures r.Some? ==> forall j :: 0 <= j < r.value ==> entries[j].name != name
    ensures r.None? ==> forall j :: 0 <= j < |entries| ==> entries[j].name != name
  {
    if entries == [] then None
    else if entries[0].name == name then Some(0)
    else match FindByName(entries[1..], name)
      case None => None
      case Some(i) => Some(i + 1)
  }

  /** The leaderboard before sorting: the player's first entry raised to
      this score and counted once more, or a new entry copied from the
      profile appended at the end. */
  function WithGame(entries: seq<Entry>, p: Profile, score: int): seq<Entry>
  {
    match FindByName(entries, p.name)
    case Some(i) =>
      var e := entries[i];
      entries[i := e.(bestScore := if score > e.bestScore then score else e.bestScore, totalGames := e.totalGames + 1)]
    case None => entries + [Entry(p.name, p.avatar, p.bestScore, p.totalGames)]
  }

  // ---------------------------------------------------------------- stable sort

  predicate SortedByScore(s: seq<Entry>)
  {
    forall i, j :: 0 <= i < j < |s| ==> s[i].bestScore >= s[j].bestScore
  }

  /** The entries with one given best score, in order. */
  function WithScore(s: seq<Entry>, k: int): (r: seq<Entry>)
    ensures |r| <= |s|
  {
    if s == [] then []
    else (if s[0].bestScore == k then [s[0]] else []) + WithScore(s[1..], k)
  }

  /** Puts `x` in front of the first entry of `t` that does not score more. */
  function InsertByScore(x: Entry, t: seq<Entry>): (r: seq<Entry>)
    ensures |r| == |t| + 1
  {
    if t == [] || t[0].bestScore <= x.bestScore then [x] + t
    else [t[0]] + InsertByScore(x, t[1..])
  }

  /** `Array.prototype.sort` with the comparator `b.bestScore - a.bestScore`
      (a stable sort, highest best score first). */
  function SortByScore(s: seq<Entry>): (r: seq<Entry>)
    ensures |r| == |s|
  {
    if s == [] then [] else InsertByScore(s[0], SortByScore(s[1..]))
  }

  lemma {:induction false} InsertKeepsSorted(x: Entry, t: seq<Entry>)
    requires SortedByScore(t)
    ensures SortedByScore(InsertByScore(x, t))
  {
    if t != [] && t[0].bestScore > x.bestScore {
      InsertKeepsSorted(x, t[1..]);
      var r := InsertByScore(x, t);
      assert r == [t[0]] + InsertByScore(x, t[1..]);
      InsertHead(x, t[1..]);
    }
  }

  /** The first entry after an insertion is either the inserted one or the
      old first one. */
  lemma {:induction false} InsertHead(x: Entry, t: seq<Entry>)
    ensures InsertByScore(x, t)[0] == x || (t != [] && InsertByScore(x, t)[0] == t[0])
    ensures multiset(InsertByScore(x, t)) == multiset(t) + multiset{x}
  {
    if t != [] && t[0].bestScore > x.bestScore {
      InsertHead(x, t[1..]);
      assert t == [t[0]] + t[1..];
    }
  }

  /** The entries of one score keep their order across an insertion, with
      the inserted entry first among its equals. */
  lemma {:induction false} InsertKeepsOrder(x: Entry, t: seq<Entry>, k: int)
    ensures WithScore(InsertByScore(x, t), k) == (if x.bestScore == k then [x] else []) + WithScore(t, k)
  {
    if t == [] || t[0].bestScore <= x.bestScore {
      WithScoreCons(x, t, k);
    } else {
      InsertKeepsOrder(x, t[1..], k);
      WithScoreCons(t[0], InsertByScore(x, t[1..]), k);
      WithScoreCons(t[0], t[1..], k);
      assert [t[0]] + t[1..] == t;
    }
  }

  lemma WithScoreCons(e: Entry, t: seq<Entry>, k: int)
    ensures WithScore([e] + t, k) == (if e.bestScore == k then [e] else []) + WithScore(t, k)
  {
    assert ([e] + t)[1..] == t;
  }

  /** The sort puts the highest best score first. */
  lemma {:induction false} SortIsSorted(s: seq<Entry>)
    ensures SortedByScore(SortByScore(s))
  {
    if s != [] {
      SortIsSorted(s[1..]);
      InsertKeepsSorted(s[0], SortByScore(s[1..]));
    }
  }

  /** The sort only reorders the entries. */
  lemma {:induction false} SortIsPermutation(s: seq<Entry>)
    ensures multiset(SortByScore(s)) == multiset(s)
  {
    if s != [] {
      SortIsPermutation(s[1..]);
      InsertHead(s[0], SortByScore(s[1..]));
      assert s == [s[0]] + s[1..];
      assert multiset(s) == multiset(s[1..]) + multiset{s[0]};
    }
  }

  /** The sort is stable: entries with the same best score keep their
      relative order. */
  lemma {:induction false} SortIsStable(s: seq<Entry>, k: int)
    ensures WithScore(SortByScore(s), k) == WithScore(s, k)
  {
    if s != [] {
      SortIsStable(s[1..], k);
      InsertKeepsOrder(s[0], SortByScore(s[1..]), k);
    }
  }

  function Top(s: seq<Entry>): (r: seq<Entry>)
    ensures |r| <= MaxRankings && r <= s
    ensures |r| == if |s| <= MaxRankings then |s| else MaxRankings
  {
    if |s| <= MaxRankings then s else s[..MaxRankings]
  }

  // ---------------------------------------------------------------- update

  /** `updateRankings`: with no player nothing is stored; otherwise the
      player's entry is updated (or added), the list sorted by best score
      and cut to the top fifty. */
  method UpdateRankings(rankings: seq<Entry>, user: Option<Profile>, score: int) returns (r: seq<Entry>)
    ensures user.None? ==> r == rankings
    ensures user.Some? ==> r == Top(SortByScore(WithGame(rankings, user.value, score)))
    ensures user.Some? ==> |r| <= MaxRankings && SortedByScore(r)
  {
    if user.None? {
      return rankings;
    }
    var p := user.value;
    var list := rankings;
    var existingIndex := -1;
    var k := 0;
    while k < |list|
      invariant 0 <= k <= |list|
      invariant existingIndex == -1
      invariant forall j :: 0 <= j < k ==> list[j].name != p.name
      decreases |list| - k
    {
      if list[k].name == p.name {
        existingIndex := k;
        break;
      }
      k := k + 1;
    }
    if existingIndex >= 0 {
      var e := list[existingIndex];
      if score > e.bestScore {
        e := e.(bestScore := score);
      }
      e := e.(totalGames := e.totalGames + 1);
      list := list[existingIndex := e];
    } else {
      list := list + [Entry(p.name, p.avatar, p.bestScore, p.totalGames)];
    }
    assert list == WithGame(rankings, p, score);
    list := SortByScore(list);
    SortIsSorted(WithGame(rankings, p, score));
    r := Top(list);
  }

  /** After a game, a leaderboard that had room keeps the player, with a
      best score of at least this game's score (the profile has already
      recorded the game when the leaderboard is updated). */
  lemma PlayerKept(rankings: seq<Entry>, p: Profile, score: int)
    requires |rankings| < MaxRankings
    requires p.bestScore >= score
    ensures exists i :: (0 <= i < |Top(SortByScore(WithGame(rankings, p, score)))|
      && Top(SortByScore(WithGame(rankings, p, score)))[i].name == p.name
      && Top(SortByScore(WithGame(rankings, p, score)))[i].bestScore >= score)
  {
    var w := WithGame(rankings, p, score);
    var e: Entry;
    match FindByName(rankings, p.name) {
      case Some(i) =>
        e := w[i];
      case None =>
        e := Entry(p.name, p.avatar, p.bestScore, p.totalGames);
        assert w[|rankings|] == e;
    }
    assert e in w;
    assert e.name == p.name && e.bestScore >= score;
    SortIsPermutation(w);
    assert e in multiset(SortByScore(w));
    var i :| 0 <= i < |SortByScore(w)| && SortByScore(w)[i] == e;
    assert Top(SortByScore(w)) == SortByScore(w);
  }

  /** The leaderboard keeps every other player's entry unchanged up to the
      cut: its entries are those before the update with only the player's
      changed or added. */
  lemma OthersUnchanged(rankings: seq<Entry>, p: Profile, score: int, e: Entry)
    requires e.name != p.name
    ensures multiset(SortByScore(WithGame(rankings, p, score)))[e] == multiset(rankings)[e]
  {
    var w := WithGame(rankings, p, score);
    SortIsPermutation(w);
    match FindByName(rankings, p.name)
    case Some(i) =>
      assert rankings[i] != e;
      assert w[i] != e;
    case None =>
  }
}
