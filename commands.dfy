/**
 * The command interpreter: an ordered table of named actions, resolved by
 * case-insensitive prefix matching of what the user typed.
 */
module Commands {
  import opened Text
  import opened Positions
  import opened Mazes
  import opened Worlds

  /** What a table entry does when it is the single match. */
  datatype Action = MoveBy(d: Delta) | Quit | Help

  datatype Entry = Entry(command: string, action: Action)

  const NoMatchMessage: string := "I do not understand you, Sire..."
  const AmbiguousMessage: string := "Your command seems ambiguous, Sire..."
  const HelpPrefix: string := "commands I understand are: "

  /** The table built by the interpreter's constructor, in order. */
  function StandardTable(): (t: seq<Entry>)
    ensures |t| == 6 && t[4].action == Quit && t[5].action == Help
    ensures forall i :: 0 <= i < 4 ==>
      && t[i].action.MoveBy?
      && (t[i].action.d.x == 0 || t[i].action.d.y == 0)
      && (t[i].action.d.x + t[i].action.d.y == 1 || t[i].action.d.x + t[i].action.d.y == -1)
  {
    [ Entry("up", MoveBy(Delta(0, -1))),
      Entry("down", MoveBy(Delta(0, 1))),
      Entry("left", MoveBy(Delta(-1, 0))),
      Entry("right", MoveBy(Delta(1, 0))),
      Entry("quit", Quit),
      Entry("help", Help) ]
  }

  /** The command names of a table, in order. */
  function Names(table: seq<Entry>): (names: seq<string>)
    ensures |names| == |table| && forall i :: 0 <= i < |table| ==> names[i] == table[i].command
  {
    seq(|table|, i requires 0 <= i < |table| => table[i].command)
  }

  /** ASCII upper-casing of one character. */
  function UpperChar(c: char): (u: char)
    ensures !('a' <= u <= 'z')
    ensures 'a' <= c <= 'z' ==> 'A' <= u <= 'Z' && u as int == c as int - 32
    ensures !('a' <= c <= 'z') ==> u == c
  {
    if 'a' <= c <= 'z' then (c as int - 32) as char else c
  }

  /** ASCII upper-casing of a string, character by character. */
  function ToUpper(s: string): (u: string)
    ensures |u| == |s| && forall k :: 0 <= k < |s| ==> u[k] == UpperChar(s[k])
  {
    seq(|s|, k requires 0 <= k < |s| => UpperChar(s[k]))
  }

  /** ASCII lower-casing of a string, used to state case insensitivity. */
  function ToLower(s: string): (l: string)
    ensures |l| == |s|
  {
    seq(|s|, k requires 0 <= k < |s| => if 'A' <= s[k] <= 'Z' then (s[k] as int + 32) as char else s[k])
  }

  /** `cmd` is a prefix of `name` once both are upper-cased. */
  predicate PrefixIgnoringCase(cmd: string, name: string)
  {
    |cmd| <= |name| && forall k :: 0 <= k < |cmd| ==> UpperChar(cmd[k]) == UpperChar(name[k])
  }

  /**
   * The comparison inside the candidate search: upper-case both strings, cut
   * the name to the length of the command (or keep it whole if shorter) and
   * compare with the command.
   */
  function Matches(name: string, cmd: string): (b: bool)
    ensures b <==> PrefixIgnoringCase(cmd, name)
  {
    var l := ToUpper(name);
    var r := ToUpper(cmd);
    var check := if |r| <= |l| then l[..|r|] else l;
    assert |r| <= |l| && check == r ==> forall k :: 0 <= k < |cmd| ==> UpperChar(cmd[k]) == UpperChar(name[k]) by {
      if |r| <= |l| && check == r {
        forall k | 0 <= k < |cmd| ensures UpperChar(cmd[k]) == UpperChar(name[k]) {
          assert check[k] == r[k];
        }
      }
    }
    check == r
  }

  /** `c` lists, in increasing order, exactly the indices of the names that `cmd` matches. */
  predicate IsCandidates(names: seq<string>, cmd: string, c: seq<nat>)
  {
    && (forall k :: 0 <= k < |c| ==> c[k] < |names| && Matches(names[c[k]], cmd))
    && (forall k, m :: 0 <= k < m < |c| ==> c[k] < c[m])
    && (forall i :: 0 <= i < |names| && Matches(names[i], cmd) ==> i in c)
  }

  /** Extending the names by one extends their candidates by that index, if it matches. */
  lemma CandidatesSnoc(names: seq<string>, cmd: string, front: seq<nat>)
    requires |names| > 0 && IsCandidates(names[..|names| - 1], cmd, front)
    ensures IsCandidates(names, cmd, front + if Matches(names[|names| - 1], cmd) then [|names| - 1] else [])
  {
    var n := |names| - 1;
    assert forall i :: 0 <= i < n ==> names[..n][i] == names[i];
  }

  /** The indices of the names that `cmd` matches, in increasing order. */
  function Candidates(names: seq<string>, cmd: string): (c: seq<nat>)
    ensures forall k :: 0 <= k < |c| ==> c[k] < |names| && Matches(names[c[k]], cmd)
    ensures forall k, m :: 0 <= k < m < |c| ==> c[k] < c[m]
    ensures forall i :: 0 <= i < |names| && Matches(names[i], cmd) ==> i in c
  {
    if |names| == 0 then []
    else
      var n := |names| - 1;
      var front := Candidates(names[..n], cmd);
      CandidatesSnoc(names, cmd, front);
      front + if Matches(names[n], cmd) then [n] else []
  }

  /** The empty command matches every entry. */
  lemma {:induction false} CandidatesOfEmpty(names: seq<string>)
    ensures |Candidates(names, "")| == |names|
    ensures forall k :: 0 <= k < |names| ==> Candidates(names, "")[k] == k
  {
    if |names| > 0 {
      CandidatesOfEmpty(names[..|names| - 1]);
    }
  }

  /** Commands that upper-case alike select the same candidates. */
  lemma {:induction false} CandidatesIgnoreCase(names: seq<string>, cmd: string, cmd': string)
    requires ToUpper(cmd) == ToUpper(cmd')
    ensures Candidates(names, cmd) == Candidates(names, cmd')
  {
    if |names| > 0 {
      var n := |names| - 1;
      CandidatesIgnoreCase(names[..n], cmd, cmd');
      assert forall k :: 0 <= k < |cmd| ==> UpperChar(cmd[k]) == UpperChar(cmd'[k]) by {
        forall k | 0 <= k < |cmd| ensures UpperChar(cmd[k]) == UpperChar(cmd'[k]) {
          assert ToUpper(cmd)[k] == ToUpper(cmd')[k];
        }
      }
    }
  }

  /** ASCII upper-casing maps a string and its lower-cased and upper-cased forms alike. */
  lemma UpperOfCaseChange(s: string)
    ensures ToUpper(ToUpper(s)) == ToUpper(s)
    ensures ToUpper(ToLower(s)) == ToUpper(s)
  {
  }

  /** Upper-casing or lower-casing a command does not change its candidates. */
  lemma CandidatesCaseChange(names: seq<string>, cmd: string)
    ensures Candidates(names, ToUpper(cmd)) == Candidates(names, cmd)
    ensures Candidates(names, ToLower(cmd)) == Candidates(names, cmd)
  {
    UpperOfCaseChange(cmd);
    CandidatesIgnoreCase(names, ToUpper(cmd), cmd);
    CandidatesIgnoreCase(names, ToLower(cmd), cmd);
  }

  /** A command longer than a name never matches it. */
  lemma LongerNeverMatches(name: string, cmd: string)
    requires |cmd| > |name|
    ensures !Matches(name, cmd)
  {
  }

  /** The text of the help message for a table with the given names. */
  function HelpMessage(names: seq<string>): string
  {
    HelpPrefix + Join(names, ", ")
  }

  /** The world state and the quit flag, as a value. */
  datatype GameState = GameState(world: WorldState, quit: bool)

  /** The effect of one entry's action. */
  function ApplySpec(table: seq<Entry>, s: GameState, a: Action): (r: GameState)
    requires WellFormed(s.world)
    ensures WellFormed(r.world)
    ensures a == Quit ==> r == s.(quit := true)
    ensures a != Quit ==> r.quit == s.quit
    ensures a == Help ==> r == s.(world := s.world.(message := HelpMessage(Names(table))))
    ensures a.MoveBy? ==> r == s.(world := MoveSpec(s.world, a.d))
    ensures !a.MoveBy? ==> r.world.grid == s.world.grid && r.world.pos == s.world.pos
  {
    match a
    case MoveBy(d) => s.(world := MoveSpec(s.world, d))
    case Quit => s.(quit := true)
    case Help => s.(world := s.world.(message := HelpMessage(Names(table))))
  }

  /**
   * The effect of performing `cmd`: no match and several matches only set
   * their message; a single match applies its entry's action.
   */
  function PerformSpec(table: seq<Entry>, s: GameState, cmd: string): (r: GameState)
    requires WellFormed(s.world)
    ensures WellFormed(r.world)
    ensures |Candidates(Names(table), cmd)| == 0 ==> r == s.(world := s.world.(message := NoMatchMessage))
    ensures |Candidates(Names(table), cmd)| > 1 ==> r == s.(world := s.world.(message := AmbiguousMessage))
    ensures |Candidates(Names(table), cmd)| == 1 ==>
      var i := Candidates(Names(table), cmd)[0];
      i < |table| && PrefixIgnoringCase(cmd, table[i].command) && r == ApplySpec(table, s, table[i].action)
  {
    var candidates := Candidates(Names(table), cmd);
    if |candidates| == 0 then s.(world := s.world.(message := NoMatchMessage))
    else if |candidates| > 1 then s.(world := s.world.(message := AmbiguousMessage))
    else ApplySpec(table, s, table[candidates[0]].action)
  }

  /** Once the quit flag is set, no command clears it. */
  lemma QuitIsFinal(table: seq<Entry>, s: GameState, cmd: string)
    requires WellFormed(s.world) && s.quit
    ensures PerformSpec(table, s, cmd).quit
  {
  }

  /** No command breaks the goblin's consistency with the grid. */
  lemma PerformPreservesConsistency(table: seq<Entry>, s: GameState, cmd: string)
    requires Consistent(s.world)
    ensures Consistent(PerformSpec(table, s, cmd).world)
  {
    var c := Candidates(Names(table), cmd);
    if |c| == 1 && table[c[0]].action.MoveBy? {
      MovePreservesConsistency(s.world, table[c[0]].action.d);
    }
  }

  /** The standard names, in table order. */
  lemma StandardNames()
    ensures Names(StandardTable()) == ["up", "down", "left", "right", "quit", "help"]
  {
  }

  /** A command whose first character differs from a name's, ignoring case, does not match it. */
  lemma FirstCharDiffers(name: string, cmd: string)
    requires |cmd| > 0 && |name| > 0 && UpperChar(cmd[0]) != UpperChar(name[0])
    ensures !Matches(name, cmd)
  {
  }

  /** A strictly increasing sequence of naturals spans at least its length. */
  lemma {:induction false} IncreasingSpan(c: seq<nat>)
    requires |c| > 0
    requires forall k, m :: 0 <= k < m < |c| ==> c[k] < c[m]
    ensures c[|c| - 1] >= c[0] + |c| - 1
  {
    if |c| > 1 {
      var front := c[..|c| - 1];
      IncreasingSpan(front);
      assert front[|front| - 1] < c[|c| - 1];
    }
  }

  /** When exactly one name matches, the candidates are that one index. */
  lemma SingleCandidate(names: seq<string>, cmd: string, i: nat)
    requires i < |names| && Matches(names[i], cmd)
    requires forall j :: 0 <= j < |names| && j != i ==> !Matches(names[j], cmd)
    ensures Candidates(names, cmd) == [i]
  {
    var c := Candidates(names, cmd);
    assert i in c;
    IncreasingSpan(c);
    assert c[0] == i && c[|c| - 1] == i;
  }

  /** The standard names are non-empty and start with six different letters, ignoring case. */
  lemma StandardInitials()
    ensures forall j :: 0 <= j < 6 ==> |Names(StandardTable())[j]| > 0
    ensures forall j, k :: 0 <= j < 6 && 0 <= k < 6 && j != k ==>
      UpperChar(Names(StandardTable())[j][0]) != UpperChar(Names(StandardTable())[k][0])
  {
  }

  /**
   * Every non-empty abbreviation of a standard name, in any case, resolves
   * to that entry alone.
   */
  lemma StandardAbbreviation(cmd: string, i: nat)
    requires i < 6 && |cmd| > 0 && PrefixIgnoringCase(cmd, Names(StandardTable())[i])
    ensures Candidates(Names(StandardTable()), cmd) == [i]
  {
    var names := Names(StandardTable());
    StandardInitials();
    forall j | 0 <= j < |names| && j != i
      ensures !Matches(names[j], cmd)
    {
      FirstCharDiffers(names[j], cmd);
    }
    SingleCandidate(names, cmd, i);
  }

  /** The empty command on the standard table selects all six entries, which is ambiguous. */
  lemma StandardEmptyCommand()
    ensures Candidates(Names(StandardTable()), "") == [0, 1, 2, 3, 4, 5]
  {
    CandidatesOfEmpty(Names(StandardTable()));
  }

  /** Joining six fragments puts the separator between each neighbouring pair. */
  lemma JoinSix(a: string, b: string, c: string, d: string, e: string, f: string, sep: string)
    ensures Join([a, b, c, d, e, f], sep) == a + sep + b + sep + c + sep + d + sep + e + sep + f
  {
    JoinSnoc([a], b, sep);
    JoinSnoc([a, b], c, sep);
    JoinSnoc([a, b, c], d, sep);
    JoinSnoc([a, b, c, d], e, sep);
    JoinSnoc([a, b, c, d, e], f, sep);
    assert [a] + [b] == [a, b] && [a, b] + [c] == [a, b, c] && [a, b, c] + [d] == [a, b, c, d];
    assert [a, b, c, d] + [e] == [a, b, c, d, e] && [a, b, c, d, e] + [f] == [a, b, c, d, e, f];
  }

  /** The help text of the standard table. */
  lemma StandardHelp()
    ensures HelpMessage(Names(StandardTable())) ==
      "commands I understand are: " + "up" + ", " + "down" + ", " + "left" + ", " + "right" + ", " + "quit" + ", " + "help"
  {
    StandardNames();
    JoinSix("up", "down", "left", "right", "quit", "help", ", ");
  }

  /** Performing "quit", or any abbreviation of it, sets the quit flag and changes nothing else. */
  lemma QuitOnlySetsFlag(s: GameState, cmd: string)
    requires WellFormed(s.world)
    requires |cmd| > 0 && PrefixIgnoringCase(cmd, "quit")
    ensures PerformSpec(StandardTable(), s, cmd) == s.(quit := true)
  {
    StandardNames();
    StandardAbbreviation(cmd, 4);
  }

  /** Performing "help", or any abbreviation of it, sets the message to the list of commands and changes nothing else. */
  lemma PerformHelp(s: GameState, cmd: string)
    requires WellFormed(s.world)
    requires |cmd| > 0 && PrefixIgnoringCase(cmd, "help")
    ensures PerformSpec(StandardTable(), s, cmd) ==
      s.(world := s.world.(message := "commands I understand are: " + "up" + ", " + "down" + ", " + "left" + ", " + "right" + ", " + "quit" + ", " + "help"))
  {
    StandardNames();
    StandardAbbreviation(cmd, 5);
    StandardHelp();
  }

  /** Performing "left", or any abbreviation of it, moves the goblin one cell to the left. */
  lemma PerformLeft(s: GameState, cmd: string)
    requires WellFormed(s.world)
    requires |cmd| > 0 && PrefixIgnoringCase(cmd, "left")
    ensures PerformSpec(StandardTable(), s, cmd) == s.(world := MoveSpec(s.world, Delta(-1, 0)))
  {
    StandardNames();
    StandardAbbreviation(cmd, 2);
  }

  /** Performing `cmd` `n` times in a row on the standard table. */
  function Repeat(s: GameState, cmd: string, n: nat): (r: GameState)
    requires WellFormed(s.world)
    ensures WellFormed(r.world)
  {
    if n == 0 then s else PerformSpec(StandardTable(), Repeat(s, cmd, n - 1), cmd)
  }

  /** One "left": a step towards x = 0 with no message, or the left wall at x = 0. */
  lemma LeftStep(s: GameState, cmd: string)
    requires WellFormed(s.world)
    requires |cmd| > 0 && PrefixIgnoringCase(cmd, "left")
    ensures var r := PerformSpec(StandardTable(), s, cmd);
      r.world.pos == Position(if s.world.pos.x > 0 then s.world.pos.x - 1 else 0, s.world.pos.y) &&
      r.world.message == if s.world.pos.x > 0 then "" else LeftWall
  {
    PerformLeft(s, cmd);
    MoveMessageOneWall(Plus(s.world.pos, Delta(-1, 0)));
  }

  /** Where repeated "left" commands take a goblin starting at x = 5. */
  lemma {:induction false} RepeatLeft(s: GameState, cmd: string, n: nat)
    requires WellFormed(s.world) && s.world.pos.x == 5
    requires |cmd| > 0 && PrefixIgnoringCase(cmd, "left")
    ensures Repeat(s, cmd, n).world.pos == Position(if n <= 5 then 5 - n else 0, s.world.pos.y)
    ensures 1 <= n <= 5 ==> Repeat(s, cmd, n).world.message == ""
    ensures n >= 6 ==> Repeat(s, cmd, n).world.message == LeftWall
  {
    if n > 0 {
      var p := Repeat(s, cmd, n - 1);
      RepeatLeft(s, cmd, n - 1);
      assert p.world.pos == Position(if n - 1 <= 5 then 5 - (n - 1) else 0, s.world.pos.y);
      LeftStep(p, cmd);
      assert Repeat(s, cmd, n) == PerformSpec(StandardTable(), p, cmd);
    }
  }

  /**
   * From the initial world, five "left" commands walk the goblin to (0, 5)
   * with no message; a sixth leaves it there and reports the left wall.
   */
  lemma LeftToTheWall(cmd: string)
    requires |cmd| > 0 && PrefixIgnoringCase(cmd, "left")
    ensures forall k :: 1 <= k <= 5 ==> Repeat(GameState(InitialState(), false), cmd, k).world.message == ""
    ensures Repeat(GameState(InitialState(), false), cmd, 5).world.pos == Position(0, 5)
    ensures Repeat(GameState(InitialState(), false), cmd, 6).world.pos == Position(0, 5)
    ensures Repeat(GameState(InitialState(), false), cmd, 6).world.message == LeftWall
  {
    var s0 := GameState(InitialState(), false);
    forall k | 1 <= k <= 5
      ensures Repeat(s0, cmd, k).world.message == ""
    {
      RepeatLeft(s0, cmd, k);
    }
    RepeatLeft(s0, cmd, 5);
    RepeatLeft(s0, cmd, 6);
  }

  class CommandInterpreter {
    const world: World
    const entries: seq<Entry>
    var quitSignal: bool

    ghost predicate Valid()
      reads this, world, world.maze, world.maze.data
    {
      world.Valid()
    }

    /** The interpreter's and its world's state, as a value. */
    ghost function Snapshot(): GameState
      reads this, world, world.maze, world.maze.data
    {
      GameState(world.State(), quitSignal)
    }

    /** The standard six commands bound to `w`, not yet quitting. */
    constructor (w: World)
      ensures world == w && entries == StandardTable() && !quitSignal
      ensures Snapshot() == GameState(w.State(), false)
      ensures Valid() <==> w.Valid()
    {
      world := w;
      entries := StandardTable();
      quitSignal := false;
    }

    /** The indices of the entries whose names `cmd` matches, in table order. */
    method FindCandidates(cmd: string) returns (result: seq<nat>)
      ensures result == Candidates(Names(entries), cmd)
      ensures forall k :: 0 <= k < |result| ==> result[k] < |entries| && PrefixIgnoringCase(cmd, entries[result[k]].command)
      ensures forall i :: 0 <= i < |entries| && PrefixIgnoringCase(cmd, entries[i].command) ==> i in result
    {
      var names := Names(entries);
      result := [];
      var i := 0;
      while i < |entries|
        invariant 0 <= i <= |entries|
        invariant result == Candidates(names[..i], cmd)
      {
        assert names[..i + 1][..i] == names[..i];
        if Matches(entries[i].command, cmd) {
          result := result + [i];
        }
        i := i + 1;
      }
      assert names[..|entries|] == names;
    }

    /** Set the world's message to the list of command names, in table order. */
    method ShowHelp()
      modifies world`recentMessage
      ensures world.recentMessage == HelpMessage(Names(entries))
    {
      ghost var names := Names(entries);
      var sep := "";
      var msg := HelpPrefix;
      for i := 0 to |entries|
        invariant sep == if i == 0 then "" else ", "
        invariant msg == HelpPrefix + Join(names[..i], ", ")
      {
        JoinSnoc(names[..i], names[i], ", ");
        assert names[..i + 1] == names[..i] + [names[i]];
        msg := msg + sep;
        msg := msg + entries[i].command;
        sep := ", ";
      }
      assert names[..|entries|] == names;
      world.recentMessage := msg;
    }

    /** Run one entry's action against the world or the interpreter. */
    method Apply(a: Action)
      requires Valid()
      modifies this, world, world.maze.data
      ensures Valid()
      ensures Snapshot() == ApplySpec(entries, old(Snapshot()), a)
    {
      match a {
        case MoveBy(d) => world.MoveGoblin(d);
        case Quit => quitSignal := true;
        case Help => ShowHelp();
      }
    }

    /** Resolve `cmd` against the table and report, or run the single match. */
    method Perform(cmd: string)
      requires Valid()
      modifies this, world, world.maze.data
      ensures Valid()
      ensures Snapshot() == PerformSpec(entries, old(Snapshot()), cmd)
    {
      ghost var before := Snapshot();
      var candidates := FindCandidates(cmd);
      if |candidates| == 0 {
        world.recentMessage := NoMatchMessage;
        assert Snapshot() == before.(world := before.world.(message := NoMatchMessage));
      } else if |candidates| > 1 {
        world.recentMessage := AmbiguousMessage;
        assert Snapshot() == before.(world := before.world.(message := AmbiguousMessage));
      } else {
        Apply(entries[candidates[0]].action);
      }
    }

    /** Whether a quit command has been performed. */
    function HasQuit(): (b: bool)
      reads this
      ensures b <==> quitSignal
    {
      quitSignal
    }
  }
}
