/** The backslash-delimited userinfo string of a player and the map parsed from it. */
module Userinfo {
  import opened Wrappers
  import opened Strings

  type Info = map<string, string>
  type Pair = (string, string)

  const SEP: char := '\\'

  /** Takes the tokens in pairs; a key without a value is an index out of range. */
  function Fill(tokens: seq<string>, info: Info): Result<Info>
    decreases |tokens|
  {
    if tokens == [] then Ok(info)
    else if |tokens| == 1 then Panic
    else Fill(tokens[2..], info[tokens[0] := tokens[1]])
  }

  /** An ip value with a colon gives up its second part as the port. */
  function SplitAddress(info: Info): Info {
    var parts := Split(if "ip" in info then info["ip"] else "", ':');
    if |parts| >= 2 then info["port" := parts[1]]["ip" := parts[0]] else info
  }

  function Parsed(ui: string): Result<Info> {
    if ui == "" then Ok(map[])
    else
      match Fill(Split(ui[1..], SEP), map[])
      case Panic => Panic
      case Ok(info) => Ok(SplitAddress(info))
  }

  method UserinfoMap(ui: string) returns (r: Result<Info>)
    ensures r == Parsed(ui)
  {
    var info: Info := map[];
    if ui == "" {
      return Ok(info);
    }
    var data := Split(ui[1..], SEP);
    var i := 0;
    while i < |data|
      invariant 0 <= i
      invariant i <= |data|
      invariant Fill(data[i..], info) == Fill(data, map[])
    {
      if i + 1 >= |data| {
        return Panic;
      }
      assert data[i..][2..] == data[i + 2..];
      info := info[data[i] := data[i + 1]];
      i := i + 2;
    }
    var ip := if "ip" in info then info["ip"] else "";
    var ipport := Split(ip, ':');
    if |ipport| >= 2 {
      info := info["port" := ipport[1]];
      info := info["ip" := ipport[0]];
    }
    r := Ok(info);
  }

  // ---------------------------------------------------------------- printing

  function Print(pairs: seq<Pair>): string {
    if pairs == [] then ""
    else [SEP] + pairs[0].0 + [SEP] + pairs[0].1 + Print(pairs[1..])
  }

  predicate Clean(pairs: seq<Pair>) {
    forall i | 0 <= i < |pairs| :: SEP !in pairs[i].0 && SEP !in pairs[i].1
  }

  function Tokens(pairs: seq<Pair>): seq<string> {
    if pairs == [] then [] else [pairs[0].0, pairs[0].1] + Tokens(pairs[1..])
  }

  /** The map in which the last pair of a key decides its value. */
  function LastWins(pairs: seq<Pair>): Info {
    if pairs == [] then map[]
    else
      var last := pairs[|pairs| - 1];
      LastWins(pairs[..|pairs| - 1])[last.0 := last.1]
  }

  lemma {:induction false} TokensFree(pairs: seq<Pair>)
    requires Clean(pairs)
    ensures Free(Tokens(pairs), SEP) && |Tokens(pairs)| == 2 * |pairs|
  {
    if pairs != [] {
      TokensFree(pairs[1..]);
    }
  }

  lemma JoinPair(k: string, v: string, rest: seq<string>)
    ensures Join([k, v], SEP) == k + [SEP] + v
    ensures rest != [] ==> Join([k, v] + rest, SEP) == k + [SEP] + v + [SEP] + Join(rest, SEP)
  {
    assert [k, v][1..] == [v];
    if rest != [] {
      var all := [k, v] + rest;
      assert all[1..] == [v] + rest && all[1..][1..] == rest;
    }
  }

  lemma Regroup(k: string, v: string, rest: string)
    ensures [SEP] + k + [SEP] + v + ([SEP] + rest) == [SEP] + (k + [SEP] + v + [SEP] + rest)
  {
  }

  lemma {:induction false} PrintIsJoin(pairs: seq<Pair>)
    requires pairs != []
    ensures Print(pairs) == [SEP] + Join(Tokens(pairs), SEP)
  {
    var (k, v) := pairs[0];
    var rest := Tokens(pairs[1..]);
    JoinPair(k, v, rest);
    hide Join;
    if |pairs| == 1 {
      assert [k, v] + rest == [k, v];
      assert Print(pairs) == [SEP] + k + [SEP] + v + "";
    } else {
      PrintIsJoin(pairs[1..]);
      Regroup(k, v, Join(rest, SEP));
    }
  }

  lemma {:induction false} FillTokens(before: seq<Pair>, pairs: seq<Pair>)
    ensures Fill(Tokens(pairs), LastWins(before)) == Ok(LastWins(before + pairs))
    decreases |pairs|
  {
    if pairs == [] {
      assert before + pairs == before;
    } else {
      FillPair(pairs, LastWins(before));
      LastWinsOneMore(before, pairs[0]);
      FillTokens(before + [pairs[0]], pairs[1..]);
      assert before + pairs == before + [pairs[0]] + pairs[1..];
    }
  }

  lemma FillPair(pairs: seq<Pair>, info: Info)
    requires pairs != []
    ensures Fill(Tokens(pairs), info) == Fill(Tokens(pairs[1..]), info[pairs[0].0 := pairs[0].1])
  {
    TokensFront(pairs);
  }

  lemma TokensFront(pairs: seq<Pair>)
    requires pairs != []
    ensures var tokens := Tokens(pairs);
            && |tokens| >= 2 && tokens[0] == pairs[0].0 && tokens[1] == pairs[0].1
            && tokens[2..] == Tokens(pairs[1..])
  {
  }

  lemma LastWinsOneMore(before: seq<Pair>, pair: Pair)
    ensures LastWins(before + [pair]) == LastWins(before)[pair.0 := pair.1]
  {
    assert (before + [pair])[..|before|] == before;
  }

  /** Parsing the printed form of backslash-free pairs gives the map in which the last
      pair of each key wins, up to the splitting of the ip value. */
  lemma RoundTrip(pairs: seq<Pair>)
    requires Clean(pairs)
    ensures Parsed(Print(pairs)) == Ok(SplitAddress(LastWins(pairs)))
  {
    if pairs == [] {
      assert Split("", ':') == [""];
    } else {
      PrintIsJoin(pairs);
      TokensFree(pairs);
      SplitJoin(Tokens(pairs), SEP);
      assert Print(pairs)[1..] == Join(Tokens(pairs), SEP);
      FillTokens([], pairs);
      assert [] + pairs == pairs;
    }
  }

  /** What the last-wins map holds. */
  lemma {:induction false} LastWinsHolds(pairs: seq<Pair>)
    ensures forall k :: k in LastWins(pairs) <==> exists i :: 0 <= i < |pairs| && pairs[i].0 == k
    ensures forall i | 0 <= i < |pairs| && (forall j | i < j < |pairs| :: pairs[j].0 != pairs[i].0) ::
              pairs[i].0 in LastWins(pairs) && LastWins(pairs)[pairs[i].0] == pairs[i].1
  {
    if pairs != [] {
      var n := |pairs| - 1;
      var front := pairs[..n];
      LastWinsHolds(front);
      forall k | exists i :: 0 <= i < |pairs| && pairs[i].0 == k ensures k in LastWins(pairs) {
        var i :| 0 <= i < |pairs| && pairs[i].0 == k;
        if i < n {
          assert front[i].0 == k;
        }
      }
      forall i | 0 <= i < |pairs| && (forall j | i < j < |pairs| :: pairs[j].0 != pairs[i].0)
        ensures pairs[i].0 in LastWins(pairs) && LastWins(pairs)[pairs[i].0] == pairs[i].1
      {
        if i < n {
          assert pairs[n].0 != pairs[i].0;
          assert front[i] == pairs[i];
        }
      }
    }
  }

  /** The splitting touches the keys ip and port only; an ip value is cut at its first
      colon, and what stands behind a second colon is lost. */
  lemma AddressSplit(info: Info, host: string, port: string, more: string)
    requires ':' !in host && ':' !in port
    ensures forall k | k != "ip" && k != "port" ::
              (k in SplitAddress(info) <==> k in info)
              && (k in info ==> SplitAddress(info)[k] == info[k])
    ensures "ip" in info && info["ip"] == host + [':'] + port ==>
              SplitAddress(info) == info["port" := port]["ip" := host]
    ensures "ip" in info && info["ip"] == host + [':'] + (port + [':'] + more) ==>
              SplitAddress(info) == info["port" := port]["ip" := host]
    ensures "ip" !in info || info["ip"] == host ==> SplitAddress(info) == info
  {
    SplitFirst(host, port, ':');
    SplitFirst(host, port + [':'] + more, ':');
    SplitFirst(port, more, ':');
    SplitWhole(port, ':');
    SplitWhole(host, ':');
  }

  /** Behind its first character the string holds an even number of backslashes, so its
      last key has no value. */
  predicate Unpaired(ui: string) {
    ui != "" && Count(ui[1..], SEP) % 2 == 0
  }

  /** UserinfoMap panics exactly on the strings whose last key has no value. */
  lemma PanicsOnOddTokens(ui: string)
    ensures Parsed(ui).Panic? <==> Unpaired(ui)
  {
    if ui != "" {
      SplitCount(ui[1..], SEP);
      FillPanics(Split(ui[1..], SEP), map[]);
    }
  }

  lemma {:induction false} FillPanics(tokens: seq<string>, info: Info)
    ensures Fill(tokens, info).Panic? <==> |tokens| % 2 == 1
    decreases |tokens|
  {
    if |tokens| >= 2 {
      FillPanics(tokens[2..], info[tokens[0] := tokens[1]]);
    }
  }
}
