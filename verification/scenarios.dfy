/**
 Concrete sessions and conversions, worked out by the verifier on fixed
 inputs.
 */
module Scenarios {
  import opened Wrappers
  import opened Text
  import opened PyInt
  import opened Address
  import opened Inventory
  import opened Sessions

  /** Python's `int()` accepts surrounding whitespace, a sign on zero and
      single underscores between digits, and refuses the empty string,
      doubled or leading underscores and stray letters. */
  lemma ParseIntExamples()
    ensures ParseInt("-0") == Some(0)
    ensures ParseInt(" 1") == Some(1)
    ensures ParseInt("1_0") == Some(10)
    ensures ParseInt("") == None
    ensures ParseInt("1__0") == None
    ensures ParseInt("_1") == None
    ensures ParseInt("1a") == None
  {
  }

  /** Leading zeros are accepted: `int("007")` is 7. */
  lemma ParseIntZeroPadded()
    ensures ParseInt("007") == Some(7)
  {
    ParseIntLeadingZero("07");
    assert "0" + "07" == "007";
    ParseIntLeadingZero("7");
    assert "0" + "7" == "07";
  }

  /** The pieces of a dotted line. */
  lemma SplitDotted(a: string, b: string, c: string, d: string)
    requires '.' !in a && '.' !in b && '.' !in c && '.' !in d
    ensures Split(a + "." + b + "." + c + "." + d, '.') == [a, b, c, d]
  {
    var cd := c + "." + d;
    var bcd := b + "." + cd;
    assert a + "." + b + "." + c + "." + d == a + ['.'] + bcd;
    SplitNoSep(d, '.');
    SplitPieceThenSep(c, '.', d);
    SplitPieceThenSep(b, '.', cd);
    SplitPieceThenSep(a, '.', bcd);
  }

  /** Four dot-free octets around three dots form an accepted line. */
  lemma AcceptsDotted(a: string, b: string, c: string, d: string)
    requires '.' !in a && '.' !in b && '.' !in c && '.' !in d
    requires IsOctet(a) && IsOctet(b) && IsOctet(c) && IsOctet(d)
    ensures ValidIP(a + "." + b + "." + c + "." + d)
  {
    SplitDotted(a, b, c, d);
  }

  lemma SmallOctets()
    ensures IsOctet("0") && IsOctet("5") && IsOctet("6") && IsOctet("10")
  {
  }

  lemma AcceptsPlainAddress()
    ensures ValidIP("10.0.0.5") && ValidIP("10.0.0.6")
  {
    SmallOctets();
    AcceptsDotted("10", "0", "0", "5");
    assert "10" + "." + "0" + "." + "0" + "." + "5" == "10.0.0.5";
    AcceptsDotted("10", "0", "0", "6");
    assert "10" + "." + "0" + "." + "0" + "." + "6" == "10.0.0.6";
  }

  lemma PaddedOctets()
    ensures IsOctet(" 10") && IsOctet("5 ")
  {
    SmallOctets();
    ParseIntPadded(" ", "10", "");
    assert " " + "10" + "" == " 10";
    ParseIntPadded("", "5", " ");
    assert "" + "5" + " " == "5 ";
  }

  /** Whitespace around a piece is tolerated, as `int()` strips it. */
  lemma AcceptsPaddedAddress()
    ensures ValidIP(" 10.0.0.5 ")
  {
    SmallOctets();
    PaddedOctets();
    AcceptsDotted(" 10", "0", "0", "5 ");
    assert " 10" + "." + "0" + "." + "0" + "." + "5 " == " 10.0.0.5 ";
  }

  lemma RejectsLargeOctet()
    ensures !ValidIP("999.1.1.1")
  {
    SplitDotted("999", "1", "1", "1");
    assert "999" + "." + "1" + "." + "1" + "." + "1" == "999.1.1.1";
    assert "999"[..2] == "99" && "99"[..1] == "9";
    assert Magnitude("999") == 999;
    ParseIntOfRun("999");
    assert !AllOctets(["999", "1", "1", "1"]) by {
      assert !IsOctet(["999", "1", "1", "1"][0]);
    }
  }

  lemma RejectsNegativeOctet()
    ensures !ValidIP("-1.1.1.1")
  {
    SplitDotted("-1", "1", "1", "1");
    assert "-1" + "." + "1" + "." + "1" + "." + "1" == "-1.1.1.1";
    ParseIntSigned("1");
    assert !AllOctets(["-1", "1", "1", "1"]) by {
      assert !IsOctet(["-1", "1", "1", "1"][0]);
    }
  }

  lemma RejectsEmptyOctet()
    ensures !ValidIP("1..2.3")
  {
    SplitDotted("1", "", "2", "3");
    assert "1" + "." + "" + "." + "2" + "." + "3" == "1..2.3";
    ParseIntBlank("");
    assert !AllOctets(["1", "", "2", "3"]) by {
      assert !IsOctet(["1", "", "2", "3"][1]);
    }
  }

  /** `int()` skips tab, line feed and the other ASCII blanks, but not the
      information separators 0x1C-0x1F: a piece led by one is a `ValueError`,
      so the line holding it is rejected. */
  lemma RejectsSeparatorOctet()
    ensures ParseInt("\t10\n") == Some(10)
    ensures ParseInt("\U{1C}10") == None
    ensures !ValidIP("\U{1C}10.0.0.5")
  {
    ParseIntPadded("\t", "10", "\n");
    assert "\t" + "10" + "\n" == "\t10\n";
    ParseIntOfRun("10");
    StripNoSpaceEnds("\U{1C}10");
    assert "\U{1C}10"[..2] == "\U{1C}1" && "\U{1C}1"[..1] == "\U{1C}";
    assert !IsDigitRun("\U{1C}10");
    SplitDotted("\U{1C}10", "0", "0", "5");
    assert "\U{1C}10" + "." + "0" + "." + "0" + "." + "5" == "\U{1C}10.0.0.5";
    assert !AllOctets(["\U{1C}10", "0", "0", "5"]) by {
      assert !IsOctet(["\U{1C}10", "0", "0", "5"][0]);
    }
  }

  lemma RejectsPieceCounts()
    ensures !ValidIP("1.2.3")
    ensures !ValidIP("1.2.3.4.5")
  {
    WrongPieceCountRejected("1.2.3");
    WrongPieceCountRejected("1.2.3.4.5");
  }

  /* --------------------------------------------------------- device names */

  lemma LowerCapitals()
    ensures Lower("SWITCH1") == "switch1" && Lower("X") == Quit && Lower("x") == Quit
  {
    LowerSpec("SWITCH1");
    LowerSpec("X");
    LowerSpec("x");
  }

  /* ------------------------------------------------------------ sessions */

  /** A router update with one mistyped address on the way: the bad line
      is counted and logged, the router gets the good one, and `x` ends the
      session. */
  lemma RouterUpdated(routers: map<string, string>, switches: map<string, string>, bad: string, good: string)
    requires routers == map["router1" := "10.10.10.1"] && switches == map["switch1" := "10.10.10.2"]
    requires !ValidIP(bad) && ValidIP(good)
    ensures Run(routers, switches, ["router1", bad, good, "x"])
         == Finished(Session(map["router1" := good], switches, map["router1" := good], [bad], 1, 1))
  {
    var lines := ["router1", bad, good, "x"];
    var s0 := Start(routers, switches);
    var s := ApplyUpdate(s0.(invalidIPCount := 1, invalidIPAddresses := [bad]), "router1", good);
    assert s == Session(map["router1" := good], switches, map["router1" := good], [bad], 1, 1);
    RouterRetried(s0, lines, bad, good);
    LowerCapitals();
    QuitRound(s, lines, 3);
  }

  lemma RouterRetried(s0: Session, lines: seq<string>, bad: string, good: string)
    requires "router1" in s0.routers && s0.invalidIPCount == 0 && s0.invalidIPAddresses == []
    requires lines == ["router1", bad, good, "x"] && !ValidIP(bad) && ValidIP(good)
    ensures RunSession(s0, lines, 0)
         == RunSession(ApplyUpdate(s0.(invalidIPCount := 1, invalidIPAddresses := [bad]), "router1", good), lines, 3)
  {
    LowerOfLowerCase("router1");
    assert lines[0] == "router1" && lines[1] == bad && lines[2] == good;
    var s1 := s0.(invalidIPCount := s0.invalidIPCount + 1, invalidIPAddresses := s0.invalidIPAddresses + [lines[1]]);
    assert s1 == s0.(invalidIPCount := 1, invalidIPAddresses := [bad]);
    RetryRound(s0, lines, 0, "router1");
  }

  /** The same session with `999.1.1.1` mistyped for `10.0.0.5`. */
  lemma RouterUpdatedExample()
    ensures Run(map["router1" := "10.10.10.1"], map["switch1" := "10.10.10.2"],
                          ["router1", "999.1.1.1", "10.0.0.5", "x"])
         == Finished(Session(map["router1" := "10.0.0.5"], map["switch1" := "10.10.10.2"],
                             map["router1" := "10.0.0.5"], ["999.1.1.1"], 1, 1))
  {
    RejectsLargeOctet();
    AcceptsPlainAddress();
    RouterUpdated(map["router1" := "10.10.10.1"], map["switch1" := "10.10.10.2"], "999.1.1.1", "10.0.0.5");
  }

  /** Updating the same switch twice, the second time in capitals: the
      entry is overwritten, so one device is recorded but two updates are
      counted. */
  lemma SwitchOverwritten(switches: map<string, string>, first: string, second: string)
    requires switches == map["switch1" := "10.10.10.2"]
    requires ValidIP(first) && ValidIP(second)
    ensures Run(map[], switches, ["switch1", first, "SWITCH1", second, "X"])
         == Finished(Session(map[], map["switch1" := second], map["switch1" := second], [], 0, 2))
  {
    var lines := ["switch1", first, "SWITCH1", second, "X"];
    var s0 := Start(map[], switches);
    var s1 := ApplyUpdate(s0, "switch1", first);
    var s2 := ApplyUpdate(s1, "switch1", second);
    SwitchStates(switches, first, second);
    SwitchFirstRound(s0, lines, first, second);
    SwitchSecondRound(s1, lines, first, second);
    LowerCapitals();
    QuitRound(s2, lines, 4);
  }

  lemma SwitchStates(switches: map<string, string>, first: string, second: string)
    requires switches == map["switch1" := "10.10.10.2"]
    ensures var s1 := ApplyUpdate(Start(map[], switches), "switch1", first);
      && s1 == Session(map[], map["switch1" := first], map["switch1" := first], [], 0, 1)
      && ApplyUpdate(s1, "switch1", second) == Session(map[], map["switch1" := second], map["switch1" := second], [], 0, 2)
  {
    var s1 := ApplyUpdate(Start(map[], switches), "switch1", first);
    assert s1 == Session(map[], map["switch1" := first], map["switch1" := first], [], 0, 1);
  }

  lemma SwitchFirstRound(s0: Session, lines: seq<string>, first: string, second: string)
    requires "switch1" in s0.switches
    requires lines == ["switch1", first, "SWITCH1", second, "X"] && ValidIP(first)
    ensures RunSession(s0, lines, 0) == RunSession(ApplyUpdate(s0, "switch1", first), lines, 2)
  {
    assert lines[0] == "switch1" && lines[1] == first;
    LowerOfLowerCase("switch1");
    UpdateRound(s0, lines, 0, "switch1");
  }

  lemma SwitchSecondRound(s1: Session, lines: seq<string>, first: string, second: string)
    requires "switch1" in s1.switches
    requires lines == ["switch1", first, "SWITCH1", second, "X"] && ValidIP(second)
    ensures RunSession(s1, lines, 2) == RunSession(ApplyUpdate(s1, "switch1", second), lines, 4)
  {
    assert lines[2] == "SWITCH1" && lines[3] == second;
    LowerCapitals();
    UpdateRound(s1, lines, 2, "switch1");
  }

  /** A switch whose name contains the letter `r` has its new address
      written into the router map, as the update step decides by name. */
  lemma SwitchNamedWithR(switches: map<string, string>, ip: string)
    requires switches == map["core1" := "10.10.10.3"] && ValidIP(ip)
    ensures Run(map[], switches, ["core1", ip, "x"])
         == Finished(Session(map["core1" := ip], switches, map["core1" := ip], [], 0, 1))
  {
    var lines := ["core1", ip, "x"];
    var s0 := Start(map[], switches);
    var s := ApplyUpdate(s0, "core1", ip);
    assert s == Session(map["core1" := ip], switches, map["core1" := ip], [], 0, 1);
    CoreRound(s0, lines, ip);
    LowerCapitals();
    QuitRound(s, lines, 2);
  }

  lemma CoreRound(s0: Session, lines: seq<string>, ip: string)
    requires "core1" in s0.switches && lines == ["core1", ip, "x"] && ValidIP(ip)
    ensures RunSession(s0, lines, 0) == RunSession(ApplyUpdate(s0, "core1", ip), lines, 2)
  {
    assert lines[0] == "core1" && lines[1] == ip;
    LowerOfLowerCase("core1");
    UpdateRound(s0, lines, 0, "core1");
  }

  /** A name outside the inventory is skipped at the device prompt. */
  lemma UnknownDeviceSkipped(routers: map<string, string>)
    requires routers == map["router1" := "10.10.10.1"]
    ensures Run(routers, map[], ["printer", "x"]) == Finished(Start(routers, map[]))
  {
    var lines := ["printer", "x"];
    LowerOfLowerCase("printer");
    LowerCapitals();
    GetValidDeviceStep(routers, map[], lines, 0);
    GetValidDeviceStep(routers, map[], lines, 1);
  }

  /** Input that ends at the address prompt ends the session without a
      summary. */
  lemma RunsOutAtAddress(routers: map<string, string>, bad: string)
    requires routers == map["router1" := "10.10.10.1"] && !ValidIP(bad)
    ensures Run(routers, map[], ["router1", bad]) == EndOfInput
  {
    var lines := ["router1", bad];
    LowerOfLowerCase("router1");
    GetValidDeviceStep(routers, map[], lines, 0);
    GetValidIPStep(lines, 1, 0, []);
  }
}
