/** How a probe reads `adb reverse --list` (crates/pane-android/src/lib.rs,
    `probe_proxy_state`): by looking for two substrings in one line. */
module ReverseProbe {
  import opened Decimal
  import opened Text

  type Port = n: nat | n <= 65535

  const DEVICE_PORT: Port := 8888

  /** The ports the registry hands to devices; 8888 itself is not one of them. */
  predicate InPool(p: Port) {
    8891 <= p <= 8898
  }

  function Spec(p: Port): string {
    "tcp:" + Dec(p)
  }

  /** One line of the listing: `<serial> tcp:<device side> tcp:<host side>`. */
  function Line(serial: string, device: Port, host: Port): string {
    Join([serial, Spec(device), Spec(host)], " ")
  }

  predicate LineMatches(line: string, macPort: Port) {
    Contains(line, "tcp:8888") && Contains(line, Spec(macPort))
  }

  predicate ReverseUp(serial: string, reverses: map<Port, Port>, macPort: Port) {
    exists d :: d in reverses && LineMatches(Line(serial, d, reverses[d]), macPort)
  }

  /** The digits of `m` begin those of `p`. */
  predicate Begins(m: Port, p: Port) {
    Dec(m) <= Dec(p)
  }

  lemma SpecContains(p: Port, m: Port)
    ensures Contains(Spec(p), Spec(m)) <==> Begins(m, p)
  {
    if Contains(Spec(p), Spec(m)) {
      var i :| 0 <= i <= |Spec(p)| && OccursAt(Spec(p), Spec(m), i);
      assert Spec(p)[i..i + |Spec(m)|][0] == Spec(p)[i] == 't';
      forall k | 1 <= k < |Spec(p)|
        ensures Spec(p)[k] != 't'
      {
        assert k >= 4 ==> Spec(p)[k] == Dec(p)[k - 4] && IsDigit(Dec(p)[k - 4]);
      }
      assert i == 0;
      assert Spec(p)[4..|Spec(m)|] == Spec(m)[4..] == Dec(m);
      assert Dec(p)[..|Dec(m)|] == Spec(p)[4..|Spec(m)|];
    }
    if Begins(m, p) {
      assert Spec(p)[0..|Spec(m)|] == "tcp:" + Dec(p)[..|Dec(m)|] == Spec(m);
      ContainsIntro(Spec(p), Spec(m), 0);
    }
  }

  /** The ports whose digits begin no other port's: 0, and those from 6554 on. */
  lemma BeginsOnlyItself(m: Port)
    ensures (forall p: Port :: Begins(m, p) <==> p == m) <==> m == 0 || m >= 6554
  {
    if m == 0 || m >= 6554 {
      forall p: Port
        ensures Begins(m, p) <==> p == m
      {
        if Begins(m, p) && m == 0 {
          NoLeadingZero(p);
          assert Dec(0) == "0" && Dec(p)[0] == '0';
        } else if Begins(m, p) {
          DecPrefix(m, p);
        }
      }
    } else {
      var p: Port := 10 * m;
      assert Dec(p) == Dec(m) + [Digit(0)];
      assert Begins(m, p) && p != m;
    }
  }

  lemma {:induction false} NoLeadingZero(p: nat)
    ensures p > 0 ==> Dec(p)[0] != '0'
  {
    if p >= 10 {
      NoLeadingZero(p / 10);
    } else if p > 0 {
      assert Digit(p) != '0';
    }
  }

  lemma LineContains(serial: string, d: Port, h: Port, m: Port)
    requires !Contains(serial, Spec(m))
    ensures Contains(Line(serial, d, h), Spec(m)) <==> Begins(m, d) || Begins(m, h)
  {
    var words := [serial, Spec(d), Spec(h)];
    assert forall i :: 0 <= i < |Dec(m)| ==> IsDigit(Dec(m)[i]);
    ContainsJoin(words, ' ', Spec(m));
    SpecContains(d, m);
    SpecContains(h, m);
    assert forall w :: w in words <==> w == serial || w == Spec(d) || w == Spec(h);
    assert words[1] in words && words[2] in words;
  }

  lemma Spec8888()
    ensures Spec(8888) == "tcp:8888"
  {
    assert Dec(8) == "8" && Dec(88) == "88" && Dec(888) == "888";
    assert Dec(8888) == Dec(888) + "8" == "8888";
  }

  /** What the two substring tests decide, for every port: some mapping has 8888 on one of its
      sides, and on one of its sides a port that begins with the digits of the wanted one. */
  lemma ReverseUpExactly(serial: string, reverses: map<Port, Port>, m: Port)
    requires !Contains(serial, Spec(m)) && !Contains(serial, Spec(8888))
    ensures ReverseUp(serial, reverses, m) <==>
            exists d :: d in reverses && 8888 in {d, reverses[d]} && (Begins(m, d) || Begins(m, reverses[d]))
  {
    Spec8888();
    forall d | d in reverses
      ensures LineMatches(Line(serial, d, reverses[d]), m)
         <==> 8888 in {d, reverses[d]} && (Begins(m, d) || Begins(m, reverses[d]))
    {
      LineContains(serial, d, reverses[d], m);
      LineContains(serial, d, reverses[d], 8888);
      BeginsOnlyItself(8888);
    }
    if ReverseUp(serial, reverses, m) {
      var d :| d in reverses && LineMatches(Line(serial, d, reverses[d]), m);
      assert 8888 in {d, reverses[d]} && (Begins(m, d) || Begins(m, reverses[d]));
    }
    if d :| d in reverses && 8888 in {d, reverses[d]} && (Begins(m, d) || Begins(m, reverses[d])) {
      assert LineMatches(Line(serial, d, reverses[d]), m);
    }
  }

  /** The mappings Pane itself ever makes. */
  ghost predicate PaneTable(reverses: map<Port, Port>) {
    forall d :: d in reverses ==>
      (d == 8888 && InPool(reverses[d])) || (d in {8889, 8890} && reverses[d] == d)
  }

  /** For a pool port the probe is right about every table Pane can leave. */
  lemma ProbeRightForPool(serial: string, reverses: map<Port, Port>, m: Port)
    requires PaneTable(reverses) && InPool(m) && !Contains(serial, Spec(m)) && !Contains(serial, Spec(8888))
    ensures ReverseUp(serial, reverses, m) <==> 8888 in reverses && reverses[8888] == m
  {
    ReverseUpExactly(serial, reverses, m);
    BeginsOnlyItself(m);
    if 8888 in reverses && reverses[8888] == m {
      assert 8888 in {8888 as Port, reverses[8888]} && Begins(m, reverses[8888]);
    }
  }

  /** The verdict on the one mapping 8888 -> `h`. */
  lemma TunnelReadsAsUp(serial: string, h: Port, m: Port)
    requires !Contains(serial, Spec(m)) && !Contains(serial, Spec(8888))
    ensures ReverseUp(serial, map[8888 := h], m) <==> Begins(m, 8888) || Begins(m, h)
  {
    var table: map<Port, Port> := map[8888 := h];
    ReverseUpExactly(serial, table, m);
    assert table[8888] == h;
    if Begins(m, 8888) || Begins(m, h) {
      assert 8888 in table && 8888 in {8888 as Port, table[8888]} && (Begins(m, 8888) || Begins(m, table[8888]));
    }
  }

  /** A stale tunnel is told apart, whatever port it leads to, if and only if the assigned port is
      not 8888, which the device side of every line already spells, and its digits begin no other
      port's. */
  lemma StaleTunnelSeen(serial: string, m: Port)
    requires !Contains(serial, Spec(m)) && !Contains(serial, Spec(8888))
    ensures (forall h: Port :: ReverseUp(serial, map[8888 := h], m) <==> h == m) <==> m != 8888 && (m == 0 || m >= 6554)
  {
    BeginsOnlyItself(m);
    forall h: Port
      ensures ReverseUp(serial, map[8888 := h], m) <==> Begins(m, 8888) || Begins(m, h)
    {
      TunnelReadsAsUp(serial, h, m);
    }
    if m != 8888 && (m == 0 || m >= 6554) {
      assert !Begins(m, 8888);
    } else if m == 8888 {
      var stale: Port := 8891;
      assert Begins(m, 8888);
      assert ReverseUp(serial, map[8888 := stale], m) && stale != m;
    } else {
      var stale: Port :| !(Begins(m, stale) <==> stale == m);
      assert Begins(m, m);
      assert ReverseUp(serial, map[8888 := stale], m) && stale != m;
    }
  }

  /** The listing of a tunnel left by an earlier session reads as up for a device on 8888. */
  lemma StaleTunnelExample()
    ensures ReverseUp("UsbFfs", map[8888 := 8891], 8888)
  {
    var table: map<Port, Port> := map[8888 := 8891];
    Spec8888();
    var line := Line("UsbFfs", 8888, 8891);
    assert line == "UsbFfs" + " " + ("tcp:8888" + " " + Spec(8891));
    assert line[7..15] == "tcp:8888";
    ContainsIntro(line, "tcp:8888", 7);
    assert LineMatches(Line("UsbFfs", 8888, table[8888]), 8888);
  }

  /** Nor is one told apart for a device on port 889: its digits begin those of 8891. */
  lemma StalePrefixExample()
    ensures ReverseUp("UsbFfs", map[8888 := 8891], 889)
  {
    assert Dec(8891) == Dec(889) + [Digit(1)];
    Spec8888();
    assert |Spec(889)| > |"UsbFfs"| && |Spec(8888)| > |"UsbFfs"|;
    TunnelReadsAsUp("UsbFfs", 8891, 889);
  }
}
