// Day 2: games of cubes drawn from a bag; a game is possible when no round
// shows more than 12 red, 13 green or 14 blue cubes.

module Day2 {
  import opened Lib

  /** One "<count> <colour>" item of a round, as the regex parser yields it. */
  datatype Handful = Blue(n: nat) | Red(n: nat) | Green(n: nat)

  datatype Round = Round(blue: nat, green: nat, red: nat)

  datatype Game = Game(id: nat, rounds: seq<Round>)

  function BlueOf(h: Handful): nat { if h.Blue? then h.n else 0 }
  function GreenOf(h: Handful): nat { if h.Green? then h.n else 0 }
  function RedOf(h: Handful): nat { if h.Red? then h.n else 0 }

  /** The sum of `count` over the handfuls. */
  function Total(hs: seq<Handful>, count: Handful -> nat): nat
    decreases |hs|
  {
    if hs == [] then 0 else Total(hs[..|hs| - 1], count) + count(hs[|hs| - 1])
  }

  /** A colour that no handful mentions totals zero. */
  lemma {:induction false} TotalUnmentioned(hs: seq<Handful>, count: Handful -> nat)
    requires forall i :: 0 <= i < |hs| ==> count(hs[i]) == 0
    ensures Total(hs, count) == 0
    decreases |hs|
  {
    if hs != [] {
      var init := hs[..|hs| - 1];
      assert forall i :: 0 <= i < |init| ==> init[i] == hs[i];
      TotalUnmentioned(init, count);
    }
  }

  /** The round described by the handfuls: per colour, the sum of the counts
      of that colour. */
  function RoundOf(hs: seq<Handful>): Round {
    Round(Total(hs, BlueOf), Total(hs, GreenOf), Total(hs, RedOf))
  }

  /** `Round::from_str`: every ','-separated piece is one handful, added to
      its colour's total; a piece that does not parse is an error. */
  method RoundFromStr(s: string, parseHandful: string -> Option<Handful>) returns (r: Option<Round>)
    ensures r.None? <==> ParseAll(Split(s, ','), parseHandful).None?
    ensures r.Some? ==> r.value == RoundOf(ParseAll(Split(s, ','), parseHandful).value)
  {
    var parsed := ParseAll(Split(s, ','), parseHandful);
    if parsed.None? {
      return None;
    }
    var hs := parsed.value;
    var round := Round(0, 0, 0);
    var i := 0;
    while i < |hs|
      invariant 0 <= i <= |hs|
      invariant round == RoundOf(hs[..i])
    {
      assert hs[..i + 1][..i] == hs[..i];
      match hs[i] {
        case Red(v) => round := round.(red := round.red + v);
        case Green(v) => round := round.(green := round.green + v);
        case Blue(v) => round := round.(blue := round.blue + v);
      }
      i := i + 1;
    }
    assert hs[..i] == hs;
    r := Some(round);
  }

  /** The round a ','-separated text describes, if every piece parses. */
  function RoundSpec(s: string, parseHandful: string -> Option<Handful>): Option<Round> {
    match ParseAll(Split(s, ','), parseHandful)
    case Some(hs) => Some(RoundOf(hs))
    case None => None
  }

  /** The game line's rounds, one per ';'-separated piece, in order. */
  method ParseGame(id: nat, rest: string, parseHandful: string -> Option<Handful>) returns (g: Option<Game>)
    ensures g.Some? ==> g.value.id == id && |g.value.rounds| == |Split(rest, ';')|
    ensures g.Some? ==> forall k :: 0 <= k < |Split(rest, ';')| ==>
      RoundSpec(Split(rest, ';')[k], parseHandful) == Some(g.value.rounds[k])
    ensures g.None? ==>
      exists k :: 0 <= k < |Split(rest, ';')| && RoundSpec(Split(rest, ';')[k], parseHandful).None?
  {
    var pieces := Split(rest, ';');
    var rounds: seq<Round> := [];
    var k := 0;
    while k < |pieces|
      invariant 0 <= k <= |pieces| && |rounds| == k
      invariant forall j :: 0 <= j < k ==> RoundSpec(pieces[j], parseHandful) == Some(rounds[j])
    {
      var r := RoundFromStr(pieces[k], parseHandful);
      if r.None? {
        return None;
      }
      rounds := rounds + [r.value];
      k := k + 1;
    }
    g := Some(Game(id, rounds));
  }

  const MaxRed := 12
  const MaxGreen := 13
  const MaxBlue := 14

  predicate RoundPossible(r: Round) {
    r.red <= MaxRed && r.green <= MaxGreen && r.blue <= MaxBlue
  }

  predicate GamePossible(g: Game) {
    forall k :: 0 <= k < |g.rounds| ==> RoundPossible(g.rounds[k])
  }

  /** The sum of the ids of the possible games. */
  function PossibleIds(games: seq<Game>): nat
    decreases |games|
  {
    if games == [] then 0
    else PossibleIds(games[..|games| - 1]) + (if GamePossible(games[|games| - 1]) then games[|games| - 1].id else 0)
  }

  function AllIds(games: seq<Game>): nat
    decreases |games|
  {
    if games == [] then 0 else AllIds(games[..|games| - 1]) + games[|games| - 1].id
  }

  /** The answer never exceeds the sum of all ids, and reaches it exactly when
      every game is possible. */
  lemma {:induction false} PossibleIdsBound(games: seq<Game>)
    ensures PossibleIds(games) <= AllIds(games)
    ensures (forall i :: 0 <= i < |games| ==> GamePossible(games[i])) ==> PossibleIds(games) == AllIds(games)
    decreases |games|
  {
    if games != [] {
      var init := games[..|games| - 1];
      assert forall i :: 0 <= i < |init| ==> init[i] == games[i];
      PossibleIdsBound(init);
    }
  }

  /** `part1`: a game contributes its id unless some round exceeds a limit. */
  method Part1(data: seq<Game>) returns (result: nat)
    ensures result == PossibleIds(data)
  {
    result := 0;
    var i := 0;
    while i < |data|
      invariant 0 <= i <= |data|
      invariant result == PossibleIds(data[..i])
    {
      var game := data[i];
      var possible := true;
      var k := 0;
      while k < |game.rounds| && possible
        invariant 0 <= k <= |game.rounds|
        invariant possible <==> forall j :: 0 <= j < k ==> RoundPossible(game.rounds[j])
        invariant !possible ==> !GamePossible(game)
      {
        var round := game.rounds[k];
        if round.red > 12 || round.green > 13 || round.blue > 14 {
          possible := false;
        }
        k := k + 1;
      }
      assert data[..i + 1][..i] == data[..i];
      if possible {
        result := result + game.id;
      }
      i := i + 1;
    }
    assert data[..i] == data;
  }

  /** The sample's games, as the parser yields them, add up to 8. */
  lemma Sample()
    ensures PossibleIds([
      Game(1, [Round(3, 0, 4), Round(6, 2, 1), Round(0, 2, 0)]),
      Game(2, [Round(1, 2, 0), Round(4, 3, 1), Round(1, 1, 0)]),
      Game(3, [Round(6, 8, 20), Round(5, 13, 4), Round(0, 5, 1)]),
      Game(4, [Round(6, 1, 3), Round(0, 3, 6), Round(15, 3, 14)]),
      Game(5, [Round(1, 3, 6), Round(2, 2, 1)])]) == 8
  {
    var games := [
      Game(1, [Round(3, 0, 4), Round(6, 2, 1), Round(0, 2, 0)]),
      Game(2, [Round(1, 2, 0), Round(4, 3, 1), Round(1, 1, 0)]),
      Game(3, [Round(6, 8, 20), Round(5, 13, 4), Round(0, 5, 1)]),
      Game(4, [Round(6, 1, 3), Round(0, 3, 6), Round(15, 3, 14)]),
      Game(5, [Round(1, 3, 6), Round(2, 2, 1)])];
    assert !RoundPossible(games[2].rounds[0]);
    assert !RoundPossible(games[3].rounds[2]);
    assert GamePossible(games[0]) && GamePossible(games[1]) && GamePossible(games[4]);
    assert games[..1] == [games[0]];
    assert PossibleIds(games[..1]) == 1;
    assert games[..2][..1] == games[..1];
    assert PossibleIds(games[..2]) == 3;
    assert games[..3][..2] == games[..2];
    assert PossibleIds(games[..3]) == 3;
    assert games[..4][..3] == games[..3];
    assert PossibleIds(games[..4]) == 3;
    assert games[..4] == games[..|games| - 1];
  }
}
