/** Ordering action commands by sequence number. */
module CommandOrder {
  import opened RoomModel

  predicate Ascending(commands: seq<ActionCommand>) {
    forall i, j :: 0 <= i < j < |commands| ==> commands[i].sequence <= commands[j].sequence
  }

  lemma {:induction false} InsertKeepsContents(commands: seq<ActionCommand>, command: ActionCommand)
    ensures multiset(InsertBySequence(commands, command)) == multiset(commands) + multiset{command}
    ensures |InsertBySequence(commands, command)| == |commands| + 1
  {
    if commands != [] && commands[0].sequence < command.sequence {
      assert commands == [commands[0]] + commands[1..];
      InsertKeepsContents(commands[1..], command);
    }
  }

  lemma {:induction false} InsertKeepsOrder(commands: seq<ActionCommand>, command: ActionCommand)
    requires StrictlyAscending(commands) && !HasSequence(commands, command.sequence)
    ensures StrictlyAscending(InsertBySequence(commands, command))
  {
    if commands != [] && commands[0].sequence < command.sequence {
      var rest := commands[1..];
      InsertKeepsOrder(rest, command);
      InsertKeepsContents(rest, command);
      var inserted := InsertBySequence(rest, command);
      forall i | 0 <= i < |inserted|
        ensures commands[0].sequence < inserted[i].sequence
      {
        assert inserted[i] in multiset(inserted);
        assert inserted[i] in rest || inserted[i] == command;
      }
    }
  }

  /** A list without repeated sequence numbers has one sorted arrangement. */
  lemma {:induction false} SortedArrangementIsUnique(xs: seq<ActionCommand>, ys: seq<ActionCommand>)
    requires StrictlyAscending(xs) && Ascending(ys) && multiset(xs) == multiset(ys)
    ensures xs == ys
  {
    assert |xs| == |multiset(xs)| == |multiset(ys)| == |ys|;
    if xs != [] {
      SameFirst(xs, ys);
      assert xs == [xs[0]] + xs[1..] && ys == [ys[0]] + ys[1..];
      assert multiset(xs[1..]) == multiset(xs) - multiset{xs[0]};
      assert multiset(ys[1..]) == multiset(ys) - multiset{ys[0]};
      SortedArrangementIsUnique(xs[1..], ys[1..]);
    }
  }

  lemma SameFirst(xs: seq<ActionCommand>, ys: seq<ActionCommand>)
    requires xs != [] && ys != [] && StrictlyAscending(xs) && Ascending(ys) && multiset(xs) == multiset(ys)
    ensures xs[0] == ys[0]
  {
    assert xs[0] in multiset(ys) && ys[0] in multiset(xs);
    var i :| 0 <= i < |xs| && xs[i] == ys[0];
    var j :| 0 <= j < |ys| && ys[j] == xs[0];
    assert ys[0].sequence <= ys[j].sequence;
  }

  /**
   The library sort the server calls promises an ascending rearrangement and nothing about ties; this is one
   function that does it. `SortedArrangementIsUnique` says that, without ties, there is no other.
   */
  function SortBySequence(commands: seq<ActionCommand>): (sorted: seq<ActionCommand>)
    ensures |sorted| == |commands|
  {
    if commands == [] then []
    else
      var last := |commands| - 1;
      InsertKeepsContents(SortBySequence(commands[..last]), commands[last]);
      InsertBySequence(SortBySequence(commands[..last]), commands[last])
  }

  lemma {:induction false} InsertKeepsAscending(commands: seq<ActionCommand>, command: ActionCommand)
    requires Ascending(commands)
    ensures Ascending(InsertBySequence(commands, command))
  {
    if commands != [] && commands[0].sequence < command.sequence {
      var rest := commands[1..];
      InsertKeepsAscending(rest, command);
      InsertKeepsContents(rest, command);
      var inserted := InsertBySequence(rest, command);
      forall i | 0 <= i < |inserted|
        ensures commands[0].sequence <= inserted[i].sequence
      {
        assert inserted[i] in multiset(inserted);
        assert inserted[i] in rest || inserted[i] == command;
      }
    }
  }

  lemma {:induction false} SortBySequenceSorts(commands: seq<ActionCommand>)
    ensures Ascending(SortBySequence(commands)) && multiset(SortBySequence(commands)) == multiset(commands)
  {
    if commands != [] {
      var last := |commands| - 1;
      SortBySequenceSorts(commands[..last]);
      InsertKeepsAscending(SortBySequence(commands[..last]), commands[last]);
      InsertKeepsContents(SortBySequence(commands[..last]), commands[last]);
      assert commands == commands[..last] + [commands[last]];
    }
  }

  /** A strictly ascending list is determined by its elements. */
  lemma {:induction false} ElementsDetermineOrder(xs: seq<ActionCommand>, ys: seq<ActionCommand>)
    requires StrictlyAscending(xs) && StrictlyAscending(ys)
    requires forall c :: c in xs <==> c in ys
    ensures xs == ys
  {
    if ys != [] {
      assert ys[0] in xs;
    }
    if xs != [] {
      assert xs[0] in ys;
      var i :| 0 <= i < |xs| && xs[i] == ys[0];
      var j :| 0 <= j < |ys| && ys[j] == xs[0];
      assert xs[0].sequence <= xs[i].sequence && ys[0].sequence <= ys[j].sequence;
      assert xs[0] == ys[0];
      forall c ensures c in xs[1..] <==> c in ys[1..] {
        if c in xs[1..] {
          assert c in ys && c.sequence > xs[0].sequence;
        }
        if c in ys[1..] {
          assert c in xs && c.sequence > ys[0].sequence;
        }
      }
      ElementsDetermineOrder(xs[1..], ys[1..]);
    }
  }
}
