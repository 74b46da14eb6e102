/** A run in which a port is closed while another thread works on it: thread 1 creates a port, thread 2
    looks it up, and thread 3 closes it before thread 2 is done, waits for it, and frees the port. */
module HandleWitness {
  import opened Options
  import opened HandleLifetime
  import opened HandleSafety
  import opened HandleRuns

  const CHOICE: Choice := Choice(true, 7, 9, true, 3)

  function Node(state: int, owner: Option<nat>): PortNode { PortNode(9, true, state, owner, false, 0) }

  /** The port at address 7 with handle 9, in the tree */
  function Listed7(state: int, pcs: map<nat, Pc>): System {
    System(map[7 := Node(state, None)], map[9 := 7], {9}, pcs, false)
  }

  /** The same not in the tree, but in the hands of a thread */
  function Owned7(state: int, owner: nat, pcs: map<nat, Pc>): System {
    System(map[7 := Node(state, Some(owner))], map[], {9}, pcs, false)
  }

  /** Closed by thread 3 */
  function Closed7(state: int, waited: bool, signals: nat, pcs: map<nat, Pc>): System {
    System(map[7 := PortNode(9, false, state, Some(3), waited, signals)], map[], {}, pcs, false)
  }

  const S0: System := System(map[], map[], {}, map[], false)
  const S1: System := System(map[], map[], {}, map[1 := Opening], false)
  const S2: System := Owned7(0, 1, map[1 := Adding(7)])
  const S3: System := Owned7(0, 1, map[1 := Inserting(7)])
  const S4: System := Listed7(0, map[1 := Inserted])
  const S5: System := Listed7(0, map[])
  const S6: System := Listed7(0, map[2 := Seeking(9)])
  const S7: System := Listed7(0, map[2 := Reading(9)])
  const S8: System := Listed7(0, map[2 := Found(7)])
  const S9: System := Listed7(1, map[2 := Referenced(7)])
  const S10: System := Listed7(1, map[2 := Working(7)])
  const S11: System := Listed7(1, map[2 := Working(7), 3 := Removing(9)])
  const S12: System := Listed7(1, map[2 := Working(7), 3 := Writing(9)])
  const S13: System := Owned7(1, 3, map[2 := Working(7), 3 := Unlinked(7)])
  const S14: System := Owned7(2, 3, map[2 := Working(7), 3 := Taken(7)])
  const S15: System := Owned7(2, 3, map[2 := Working(7), 3 := Closing(7)])
  const S16: System := Closed7(2, false, 0, map[2 := Working(7), 3 := Closed(7)])
  const S17: System := Closed7(DESTROY + 1, true, 0, map[2 := Working(7), 3 := Awaiting(7)])
  const S18: System := Closed7(DESTROY, true, 1, map[2 := Signalling(7), 3 := Awaiting(7)])
  const S19: System := Closed7(DESTROY, true, 1, map[3 := Destroying(7)])
  const S20: System := Closed7(POISON, true, 1, map[3 := Destroyed(7)])

  lemma {:induction false} FewThreads(s: System)
    requires |s.pcs| < 10
    ensures Bounded(s)
  {
    forall n: nat
      ensures |Holders(s, n)| < DESTROY
    {
      var rest := s.pcs.Keys - Holders(s, n);
      assert s.pcs.Keys == Holders(s, n) + rest;
    }
  }

  lemma {:induction false} Goes(run: seq<Step>, s: System, step: Step, s': System)
    requires After(run) == Some(s) && Enabled(s, step) && Next(s, step) == s' && |s'.pcs| < 10
    ensures After(run + [step]) == Some(s')
  {
    FewThreads(s');
    RunExtends(run, step);
  }

  lemma {:induction false} Step1()
    ensures Enabled(S0, Call(1, Opening)) && Next(S0, Call(1, Opening)) == S1
  {
    var s := Next(S0, Call(1, Opening));
    assert s.pcs == S1.pcs;
  }

  lemma {:induction false} Step2()
    ensures Enabled(S1, Move(1, CHOICE)) && Next(S1, Move(1, CHOICE)) == S2
  {
    var s := Next(S1, Move(1, CHOICE));
    assert s.ports == S2.ports;
    assert s.open == S2.open;
    assert s.pcs == S2.pcs;
  }

  lemma {:induction false} Step3()
    ensures Enabled(S2, Move(1, CHOICE)) && Next(S2, Move(1, CHOICE)) == S3
  {
    var s := Next(S2, Move(1, CHOICE));
    assert s.pcs == S3.pcs;
  }

  lemma {:induction false} Step4()
    ensures Enabled(S3, Move(1, CHOICE)) && Next(S3, Move(1, CHOICE)) == S4
  {
    var s := Next(S3, Move(1, CHOICE));
    assert s.ports == S4.ports;
    assert s.tree == S4.tree;
    assert s.pcs == S4.pcs;
  }

  lemma {:induction false} Step5()
    ensures Enabled(S4, Move(1, CHOICE)) && Next(S4, Move(1, CHOICE)) == S5
  {
    var s := Next(S4, Move(1, CHOICE));
    assert s.pcs == S5.pcs;
  }

  lemma {:induction false} Step6()
    ensures Enabled(S5, Call(2, Seeking(9))) && Next(S5, Call(2, Seeking(9))) == S6
  {
    var s := Next(S5, Call(2, Seeking(9)));
    assert s.pcs == S6.pcs;
  }

  lemma {:induction false} Step7()
    ensures Enabled(S6, Move(2, CHOICE)) && Next(S6, Move(2, CHOICE)) == S7
  {
    var s := Next(S6, Move(2, CHOICE));
    assert s.pcs == S7.pcs;
  }

  lemma {:induction false} Step8()
    ensures Enabled(S7, Move(2, CHOICE)) && Next(S7, Move(2, CHOICE)) == S8
  {
    var s := Next(S7, Move(2, CHOICE));
    assert s.pcs == S8.pcs;
  }

  lemma {:induction false} Step9()
    ensures Enabled(S8, Move(2, CHOICE)) && Next(S8, Move(2, CHOICE)) == S9
  {
    var s := Next(S8, Move(2, CHOICE));
    assert s.ports == S9.ports;
    assert s.pcs == S9.pcs;
  }

  lemma {:induction false} Step10()
    ensures Enabled(S9, Move(2, CHOICE)) && Next(S9, Move(2, CHOICE)) == S10
  {
    var s := Next(S9, Move(2, CHOICE));
    assert s.pcs == S10.pcs;
  }

  lemma {:induction false} Step11()
    ensures Enabled(S10, Call(3, Removing(9))) && Next(S10, Call(3, Removing(9))) == S11
  {
    var s := Next(S10, Call(3, Removing(9)));
    assert s.pcs == S11.pcs;
  }

  lemma {:induction false} Step12()
    ensures Enabled(S11, Move(3, CHOICE)) && Next(S11, Move(3, CHOICE)) == S12
  {
    var s := Next(S11, Move(3, CHOICE));
    assert s.pcs == S12.pcs;
  }

  lemma {:induction false} Step13()
    ensures Enabled(S12, Move(3, CHOICE)) && Next(S12, Move(3, CHOICE)) == S13
  {
    var s := Next(S12, Move(3, CHOICE));
    assert s.ports == S13.ports;
    assert s.tree == S13.tree;
    assert s.pcs == S13.pcs;
  }

  lemma {:induction false} Step14()
    ensures Enabled(S13, Move(3, CHOICE)) && Next(S13, Move(3, CHOICE)) == S14
  {
    var s := Next(S13, Move(3, CHOICE));
    assert s.ports == S14.ports;
    assert s.pcs == S14.pcs;
  }

  lemma {:induction false} Step15()
    ensures Enabled(S14, Move(3, CHOICE)) && Next(S14, Move(3, CHOICE)) == S15
  {
    var s := Next(S14, Move(3, CHOICE));
    assert s.pcs == S15.pcs;
  }

  lemma {:induction false} Step16()
    ensures Enabled(S15, Move(3, CHOICE)) && Next(S15, Move(3, CHOICE)) == S16
  {
    var s := Next(S15, Move(3, CHOICE));
    assert s.ports == S16.ports;
    assert s.open == S16.open;
    assert s.pcs == S16.pcs;
  }

  lemma {:induction false} Step17()
    ensures Enabled(S16, Move(3, CHOICE)) && Next(S16, Move(3, CHOICE)) == S17
  {
    var s := Next(S16, Move(3, CHOICE));
    assert s.ports == S17.ports;
    assert s.pcs == S17.pcs;
  }

  lemma {:induction false} Step18()
    ensures Enabled(S17, Move(2, CHOICE)) && Next(S17, Move(2, CHOICE)) == S18
  {
    var s := Next(S17, Move(2, CHOICE));
    assert s.ports == S18.ports;
    assert s.pcs == S18.pcs;
  }

  lemma {:induction false} Step19()
    ensures Enabled(S18, Move(2, CHOICE)) && Next(S18, Move(2, CHOICE)) == S19
  {
    var s := Next(S18, Move(2, CHOICE));
    assert s.pcs == S19.pcs;
  }

  lemma {:induction false} Step20()
    ensures Enabled(S19, Move(3, CHOICE)) && Next(S19, Move(3, CHOICE)) == S20
  {
    var s := Next(S19, Move(3, CHOICE));
    assert s.ports == S20.ports;
    assert s.pcs == S20.pcs;
  }

  lemma {:induction false} Step21()
    ensures Enabled(S20, Move(3, CHOICE)) && Next(S20, Move(3, CHOICE)) == S0
  {
    var s := Next(S20, Move(3, CHOICE));
    assert s.ports == S0.ports;
    assert s.pcs == S0.pcs;
  }

  /** Thread 1 has made a port and is gone. */
  lemma {:induction false} PortMade() returns (run: seq<Step>)
    ensures |run| == 5 && After(run) == Some(S5)
  {
    run := [];
    Step1();
    Goes(run, S0, Call(1, Opening), S1);
    run := run + [Call(1, Opening)];
    Step2();
    Goes(run, S1, Move(1, CHOICE), S2);
    run := run + [Move(1, CHOICE)];
    Step3();
    Goes(run, S2, Move(1, CHOICE), S3);
    run := run + [Move(1, CHOICE)];
    Step4();
    Goes(run, S3, Move(1, CHOICE), S4);
    run := run + [Move(1, CHOICE)];
    Step5();
    Goes(run, S4, Move(1, CHOICE), S5);
    run := run + [Move(1, CHOICE)];
  }

  /** Thread 2 works on the port thread 1 has made. */
  lemma {:induction false} PortFound() returns (run: seq<Step>)
    ensures |run| == 10 && After(run) == Some(S10)
  {
    run := PortMade();
    Step6();
    Goes(run, S5, Call(2, Seeking(9)), S6);
    run := run + [Call(2, Seeking(9))];
    Step7();
    Goes(run, S6, Move(2, CHOICE), S7);
    run := run + [Move(2, CHOICE)];
    Step8();
    Goes(run, S7, Move(2, CHOICE), S8);
    run := run + [Move(2, CHOICE)];
    Step9();
    Goes(run, S8, Move(2, CHOICE), S9);
    run := run + [Move(2, CHOICE)];
    Step10();
    Goes(run, S9, Move(2, CHOICE), S10);
    run := run + [Move(2, CHOICE)];
  }

  /** While thread 2 works on the port thread 3 has been through port_close. */
  lemma {:induction false} ClosedWhileWorking() returns (run: seq<Step>)
    ensures |run| == 16 && After(run) == Some(S16)
    ensures S16.pcs[2] == Working(7) && S16.pcs[3] == Closed(7) && !S16.ports[7].iocpOpen
  {
    run := PortFound();
    Step11();
    Goes(run, S10, Call(3, Removing(9)), S11);
    run := run + [Call(3, Removing(9))];
    Step12();
    Goes(run, S11, Move(3, CHOICE), S12);
    run := run + [Move(3, CHOICE)];
    Step13();
    Goes(run, S12, Move(3, CHOICE), S13);
    run := run + [Move(3, CHOICE)];
    Step14();
    Goes(run, S13, Move(3, CHOICE), S14);
    run := run + [Move(3, CHOICE)];
    Step15();
    Goes(run, S14, Move(3, CHOICE), S15);
    run := run + [Move(3, CHOICE)];
    Step16();
    Goes(run, S15, Move(3, CHOICE), S16);
    run := run + [Move(3, CHOICE)];
  }

  /** And then thread 2 signals thread 3, which frees the port: nothing is left, and no assertion has failed. */
  lemma {:induction false} PortComesAndGoes() returns (run: seq<Step>)
    ensures |run| == 21 && After(run) == Some(START)
  {
    run := ClosedWhileWorking();
    Step17();
    Goes(run, S16, Move(3, CHOICE), S17);
    run := run + [Move(3, CHOICE)];
    Step18();
    Goes(run, S17, Move(2, CHOICE), S18);
    run := run + [Move(2, CHOICE)];
    Step19();
    Goes(run, S18, Move(2, CHOICE), S19);
    run := run + [Move(2, CHOICE)];
    Step20();
    Goes(run, S19, Move(3, CHOICE), S20);
    run := run + [Move(3, CHOICE)];
    Step21();
    Goes(run, S20, Move(3, CHOICE), S0);
    run := run + [Move(3, CHOICE)];
  }
}
