/**
 * What the assembled strings look like, for every combination of the
 * form's checkboxes: which parameters and flags are present, in which
 * order, and how the pieces are delimited.
 *
 * Because user text is interpolated verbatim, "the URL contains X only if
 * the box is ticked" can only hold when the user's own text does not
 * contain X; those lemmas carry that as a precondition, and
 * UnescapedPassphraseInjectsLatency shows it cannot be dropped.
 */
module CommandProperties {
  import opened Decimal
  import opened Text
  import opened Converter

  /** Host and port, the user text always written into the input URL, do not contain t. */
  predicate HostPortFree(t: string, f: Form) {
    !Occurs(t, f.inputHost) && !Occurs(t, f.inputPort)
  }

  /** No user text that reaches the input URL contains t. */
  predicate InputTextFree(t: string, f: Form) {
    HostPortFree(t, f) && (f.addPassphrase ==> !Occurs(t, f.passphrase))
  }

  /** Pattern t occurs in s, with any text on either side. */
  lemma OccursInside(t: string, a: string, s: string, b: string)
    requires Occurs(t, s)
    ensures Occurs(t, a + s + b)
  {
    OccursInRight(t, a, s);
    OccursInLeft(t, a + s, b);
  }

  /** A rendered integer holds only digits and a leading minus sign. */
  lemma DecimalLacks(i: int, c: char)
    requires !IsDigit(c) && c != '-'
    ensures c !in IntToDecimal(i)
  {
  }

  // ---------------------------------------------------------------------
  // Characters of the fixed texts
  // ---------------------------------------------------------------------

  lemma InputQueryLacks(c: char)
    requires c == 'l' || c == 'p' || c == '-'
    ensures c !in InputQuery
  {
  }

  lemma InputQueryEnds()
    ensures InputQuery[0] == '?' && InputQuery[|InputQuery| - 1] == '0'
  {
  }

  lemma CommandPrefixLacksV()
    ensures 'v' !in CommandPrefix && CommandPrefix[|CommandPrefix| - 1] == ' '
  {
  }

  lemma OutputHostTailLacks(c: char)
    requires c == 'v' || c == ' '
    ensures c !in OutputHostTail
  {
  }

  lemma OutputDelimiters()
    ensures OutputHostTail[0] == '-' && OutputQuery[0] == '?'
  {
  }

  lemma EncoderBlockHasCodec()
    ensures Occurs("-vcodec", EncoderBlock)
  {
    var t := "-vcodec";
    var s := " -vcodec h264_nvenc";
    assert OccursAt(t, s, 1);
    OccursInLeft(t, s, " -s 1920x1080");
    OccursInLeft(t, s + " -s 1920x1080", " -rc:v vbr");
    OccursInLeft(t, s + " -s 1920x1080" + " -rc:v vbr", " -cq:v 20");
    OccursInLeft(t, s + " -s 1920x1080" + " -rc:v vbr" + " -cq:v 20", " -pix_fmt yuv420p");
    OccursInLeft(t, s + " -s 1920x1080" + " -rc:v vbr" + " -cq:v 20" + " -pix_fmt yuv420p", " -f mpegts");
  }

  // ---------------------------------------------------------------------
  // Input URL
  // ---------------------------------------------------------------------

  /**
   * Whatever the checkboxes say, the input URL starts with the fixed base,
   * and what follows it is exactly the latency parameter (if ticked) and
   * then the passphrase parameter (if ticked).
   */
  lemma InputUrlLayout(f: Form)
    ensures var base := "srt://" + f.inputHost + ":" + f.inputPort
                        + "?fc=5000000&rcvbuf=100000000&timeout=10000000";
            base <= InputUrl(f)
            && InputUrl(f)[|base|..] ==
               (if f.addLatency then "&latency=" + IntToDecimal(f.latencyMs) else "")
               + (if f.addPassphrase then "&passphrase=" + f.passphrase else "")
  {
    var base := InputBase(f.inputHost, f.inputPort);
    assert InputUrl(f) == base + (LatencyParam(f) + PassphraseParam(f));
  }

  /** The fixed base of the input URL holds t only inside the host or the port. */
  lemma BaseFree(t: string, c: char, host: string, port: string)
    requires c in t && c !in "srt://" && c !in InputQuery
    requires '/' !in t && ':' !in t && '?' !in t
    requires !Occurs(t, host) && !Occurs(t, port)
    ensures !Occurs(t, InputBase(host, port))
  {
    InputQueryEnds();
    AbsentCharacter(t, "srt://", c);
    NoOccurrenceAcross(t, "srt://", host);
    AbsentCharacter(t, ":", c);
    NoOccurrenceAcross(t, "srt://" + host, ":");
    NoOccurrenceAcross(t, "srt://" + host + ":", port);
    AbsentCharacter(t, InputQuery, c);
    NoOccurrenceAcross(t, "srt://" + host + ":" + port, InputQuery);
  }

  /** Ticking the latency box always puts the latency parameter right after the base. */
  lemma LatencyPresent(f: Form)
    requires f.addLatency
    ensures OccursAt(LatencyKey, InputUrl(f), |InputBase(f.inputHost, f.inputPort)|)
  {
    KeyAfterBase(InputBase(f.inputHost, f.inputPort), LatencyKey, IntToDecimal(f.latencyMs), PassphraseParam(f));
  }

  /** Ticking the passphrase box always puts the passphrase parameter after base and latency. */
  lemma PassphrasePresent(f: Form)
    requires f.addPassphrase
    ensures OccursAt(PassphraseKey, InputUrl(f),
                     |InputBase(f.inputHost, f.inputPort)| + |LatencyParam(f)|)
  {
    KeyAtEnd(InputBase(f.inputHost, f.inputPort) + LatencyParam(f), PassphraseKey, f.passphrase);
  }

  lemma KeyAfterBase(b: string, k: string, d: string, r: string)
    ensures OccursAt(k, b + (k + d) + r, |b|) && OccursAt(d, b + (k + d) + r, |b| + |k|)
  {
    assert b + (k + d) + r == b + k + d + r;
    MiddlePiece(b, k, d + r);
    assert b + (k + d) + r == (b + k) + d + r;
    MiddlePiece(b + k, d, r);
  }

  lemma KeyAtEnd(b: string, k: string, p: string)
    ensures OccursAt(k, b + (k + p), |b|) && EndsWith(b + (k + p), p)
  {
    assert b + (k + p) == b + k + p;
    MiddlePiece(b, k, p);
  }

  /**
   * The input URL contains "&latency=" exactly when the latency box is
   * ticked, provided the user's own text does not contain it.
   */
  lemma LatencyIff(f: Form)
    requires InputTextFree(LatencyKey, f)
    ensures Occurs(LatencyKey, InputUrl(f)) <==> f.addLatency
  {
    if f.addLatency {
      LatencyPresent(f);
    } else {
      LatencyAbsent(f);
    }
  }

  lemma LatencyAbsent(f: Form)
    requires !f.addLatency && InputTextFree(LatencyKey, f)
    ensures !Occurs(LatencyKey, InputUrl(f))
  {
    var base := InputBase(f.inputHost, f.inputPort);
    InputQueryLacks('l');
    InputQueryEnds();
    BaseFree(LatencyKey, 'l', f.inputHost, f.inputPort);
    PassphraseParamLacksLatency(f);
    NoOccurrenceAcross(LatencyKey, base, PassphraseParam(f));
    assert InputUrl(f) == base + PassphraseParam(f);
  }

  /** The passphrase parameter holds "&latency=" only inside the passphrase. */
  lemma PassphraseParamLacksLatency(f: Form)
    requires f.addPassphrase ==> !Occurs(LatencyKey, f.passphrase)
    ensures !Occurs(LatencyKey, PassphraseParam(f))
  {
    if f.addPassphrase {
      var t, p := LatencyKey, f.passphrase;
      NoOccurrenceAfterHead(t, "passphrase=", p);
      NoOccurrenceAcross(t, "&", "passphrase=" + p);
      assert PassphraseKey + p == "&" + ("passphrase=" + p);
    }
  }

  /**
   * The input URL contains "&passphrase=" exactly when the passphrase box
   * is ticked, provided the host and port do not contain it.
   */
  lemma PassphraseIff(f: Form)
    requires HostPortFree(PassphraseKey, f)
    ensures Occurs(PassphraseKey, InputUrl(f)) <==> f.addPassphrase
  {
    if f.addPassphrase {
      PassphrasePresent(f);
    } else {
      PassphraseAbsent(f);
    }
  }

  lemma PassphraseAbsent(f: Form)
    requires !f.addPassphrase && HostPortFree(PassphraseKey, f)
    ensures !Occurs(PassphraseKey, InputUrl(f))
  {
    var base := InputBase(f.inputHost, f.inputPort);
    InputQueryLacks('p');
    InputQueryEnds();
    BaseFree(PassphraseKey, 'p', f.inputHost, f.inputPort);
    LatencyParamLacksPassphrase(f);
    NoOccurrenceAcross(PassphraseKey, base, LatencyParam(f));
    assert InputUrl(f) == base + LatencyParam(f);
  }

  /** The latency parameter never holds "&passphrase=": its value is a number. */
  lemma LatencyParamLacksPassphrase(f: Form)
    ensures !Occurs(PassphraseKey, LatencyParam(f))
  {
    if f.addLatency {
      var t, d := PassphraseKey, IntToDecimal(f.latencyMs);
      DecimalLacks(f.latencyMs, '&');
      AbsentCharacter(t, d, '&');
      NoOccurrenceAfterHead(t, "latency=", d);
      NoOccurrenceAcross(t, "&", "latency=" + d);
      assert LatencyKey + d == "&" + ("latency=" + d);
    }
  }

  /** With both boxes ticked, the latency parameter comes first and the passphrase right after it. */
  lemma LatencyBeforePassphrase(f: Form)
    requires f.addLatency && f.addPassphrase
    ensures var url, d := InputUrl(f), IntToDecimal(f.latencyMs);
            var i := |InputBase(f.inputHost, f.inputPort)|;
            var j := i + |LatencyKey| + |d|;
            i < j && OccursAt(LatencyKey, url, i) && OccursAt(d, url, i + |LatencyKey|)
            && OccursAt(PassphraseKey, url, j) && |url| == j + |PassphraseKey| + |f.passphrase|
            && EndsWith(url, f.passphrase)
  {
    var base, d := InputBase(f.inputHost, f.inputPort), IntToDecimal(f.latencyMs);
    KeyAfterBase(base, LatencyKey, d, PassphraseKey + f.passphrase);
    KeyAtEnd(base + (LatencyKey + d), PassphraseKey, f.passphrase);
  }

  /**
   * A pattern that shares none of the input URL's delimiters, and has one
   * character outside every fixed part and one outside both parameter keys
   * and rendered numbers, occurs in the input URL only inside user text.
   */
  lemma InputUrlFree(t: string, c: char, e: char, f: Form)
    requires c in t && c !in "srt://" && c !in InputQuery
    requires e in t && e !in LatencyKey && e !in PassphraseKey && !IsDigit(e) && e != '-'
    requires '/' !in t && ':' !in t && '?' !in t && '&' !in t && '=' !in t
    requires InputTextFree(t, f)
    ensures !Occurs(t, InputUrl(f))
  {
    var base := InputBase(f.inputHost, f.inputPort);
    InputQueryEnds();
    BaseFree(t, c, f.inputHost, f.inputPort);
    var lat := LatencyParam(f);
    if f.addLatency {
      DecimalLacks(f.latencyMs, e);
    }
    AbsentCharacter(t, lat, e);
    NoOccurrenceAcross(t, base, lat);
    var pass := PassphraseParam(f);
    if f.addPassphrase {
      AbsentCharacter(t, PassphraseKey, e);
      NoOccurrenceAcross(t, PassphraseKey, f.passphrase);
    }
    NoOccurrenceAcross(t, base + lat, pass);
  }

  /**
   * The counterexample that makes the precondition of LatencyIff necessary:
   * with the latency box unticked, a passphrase holding "&latency=" still
   * puts that text into the URL, because it is interpolated unescaped.
   */
  lemma UnescapedPassphraseInjectsLatency()
    ensures var f := DefaultForm.(addLatency := false, passphrase := "x&latency=1");
            !f.addLatency && Occurs(LatencyKey, InputUrl(f))
  {
    var f := DefaultForm.(addLatency := false, passphrase := "x&latency=1");
    var base := InputBase(f.inputHost, f.inputPort);
    assert InputUrl(f) == base + (PassphraseKey + "x") + (LatencyKey + "1");
    assert OccursAt(LatencyKey, InputUrl(f), |base| + |PassphraseKey| + 1);
  }

  // ---------------------------------------------------------------------
  // Output URL
  // ---------------------------------------------------------------------

  /** The output URL is the host template with the three numbers substituted. */
  lemma OutputUrlLayout(server: int, port: int, timeout: int)
    ensures var u := OutputUrl(server, port, timeout);
            var s, p, o := IntToDecimal(server), IntToDecimal(port), IntToDecimal(timeout);
            var n := |OutputHostHead| + |s| + |OutputHostTail|;
            |u| == n + |p| + |OutputQuery| + |o|
            && u[..|OutputHostHead|] == OutputHostHead
            && u[|OutputHostHead|..|OutputHostHead| + |s|] == s
            && u[|OutputHostHead| + |s|..n] == OutputHostTail
            && u[n..n + |p|] == p
            && u[n + |p|..] == OutputQuery + o
  {
    var s, p, o := IntToDecimal(server), IntToDecimal(port), IntToDecimal(timeout);
    var h := OutputHostHead + s + OutputHostTail;
    var u := OutputUrl(server, port, timeout);
    assert u == h + p + (OutputQuery + o);
    MiddlePiece(h, p, OutputQuery + o);
    MiddlePiece(OutputHostHead, s, OutputHostTail);
    assert u[..|h|] == h;
  }

  /**
   * The output URL determines the server number, the port and the timeout:
   * two forms reach the same destination exactly when the three agree.
   */
  lemma OutputUrlDeterminesTarget(s1: int, p1: int, t1: int, s2: int, p2: int, t2: int)
    ensures OutputUrl(s1, p1, t1) == OutputUrl(s2, p2, t2) <==> s1 == s2 && p1 == p2 && t1 == t2
  {
    if OutputUrl(s1, p1, t1) == OutputUrl(s2, p2, t2) {
      OutputDelimiters();
      DelimitedNumbers(OutputHostHead, OutputHostTail, OutputQuery, s1, p1, t1, s2, p2, t2);
    }
  }

  /**
   * Three rendered integers separated by fixed texts that start with a
   * non-digit can be read back from the concatenation.
   */
  lemma DelimitedNumbers(h: string, d: string, e: string, s1: int, p1: int, t1: int, s2: int, p2: int, t2: int)
    requires |d| > 0 && !IsDigit(d[0]) && |e| > 0 && !IsDigit(e[0])
    requires h + IntToDecimal(s1) + d + IntToDecimal(p1) + e + IntToDecimal(t1)
             == h + IntToDecimal(s2) + d + IntToDecimal(p2) + e + IntToDecimal(t2)
    ensures s1 == s2 && p1 == p2 && t1 == t2
  {
    var a1, b1, c1 := IntToDecimal(s1), IntToDecimal(p1), IntToDecimal(t1);
    var a2, b2, c2 := IntToDecimal(s2), IntToDecimal(p2), IntToDecimal(t2);
    Reassociate(h, a1, d, b1, e, c1);
    Reassociate(h, a2, d, b2, e, c2);
    CancelPrefix(h, a1 + (d + (b1 + (e + c1))), a2 + (d + (b2 + (e + c2))));
    DecimalThenDelimiter(s1, d + (b1 + (e + c1)), s2, d + (b2 + (e + c2)));
    CancelPrefix(d, b1 + (e + c1), b2 + (e + c2));
    DecimalThenDelimiter(p1, e + c1, p2, e + c2);
    CancelPrefix(e, c1, c2);
    DecimalInjective(t1, t2);
  }

  /** The output URL contains no space and no 'v'. */
  lemma OutputUrlLacks(c: char, server: int, port: int, timeout: int)
    requires c == ' ' || c == 'v'
    ensures c !in OutputUrl(server, port, timeout)
  {
    DecimalLacks(server, c);
    DecimalLacks(port, c);
    DecimalLacks(timeout, c);
    OutputHostTailLacks(c);
    OutputHeadAndQueryLack(c);
  }

  lemma OutputHeadAndQueryLack(c: char)
    requires c == ' ' || c == 'v'
    ensures c !in OutputHostHead && c !in OutputQuery
  {
  }

  /** The port and timeout the form starts with render as the digits typed. */
  lemma DefaultNumbersRender()
    ensures IntToDecimal(10011) == "10011" && IntToDecimal(10000000) == "10000000"
  {
    assert NatDigits(1) == "1";
    assert NatDigits(10) == "10";
    assert NatDigits(100) == "100";
    assert NatDigits(1001) == "1001";
    assert NatDigits(1000) == "1000";
    assert NatDigits(10000) == "10000";
    assert NatDigits(100000) == "100000";
    assert NatDigits(1000000) == "1000000";
  }

  /** Server 5, with the default port and timeout, gives the ingest host wsc-wowza5. */
  lemma ServerFiveScenario()
    ensures OutputUrl(5, 10011, 10000000)
            == "srt://wsc-wowza" + "5" + "-prod-wowza-eus2" + ".eastus2.cloudapp.azure.com" + ":"
               + "10011" + "?timeout=" + "10000000"
  {
    DefaultNumbersRender();
    assert IntToDecimal(5) == "5";
  }

  // ---------------------------------------------------------------------
  // Video/audio flags
  // ---------------------------------------------------------------------

  /**
   * The flag block is empty exactly when the stream is copied; otherwise
   * it begins with a single space and then a flag, so it never runs into
   * the input URL.
   */
  lemma VideoFlagsDelimited(f: Form)
    ensures VideoFlags(f) == "" <==> !f.shouldConvert
    ensures VideoFlags(f) == "" || StartsWith(VideoFlags(f), " -")
  {
    if f.shouldConvert {
      FlagBlocksStartWithFlag();
      LedBlock(" -", YadifSegment(f), EncoderBlock, AudioBlock(f) + MappingBlock + StreamIdBlock);
      assert VideoFlags(f) == YadifSegment(f) + EncoderBlock + (AudioBlock(f) + MappingBlock + StreamIdBlock);
    }
  }

  lemma FlagBlocksStartWithFlag()
    ensures StartsWith(YadifFlag, " -") && StartsWith(EncoderBlock, " -")
  {
    assert YadifFlag[..2] == " -";
    assert EncoderBlock[..2] == " -";
  }

  /** An x-led piece after one that is empty or x-led keeps the whole x-led. */
  lemma LedBlock(x: string, y: string, e: string, r: string)
    requires y == "" || StartsWith(y, x)
    requires StartsWith(e, x)
    ensures StartsWith(y + e + r, x)
  {
    var w := y + e + r;
    if y == "" {
      assert w == e + r;
      assert w[..|x|] == e[..|x|];
    } else {
      assert w == y + (e + r);
      assert w[..|x|] == y[..|x|];
    }
  }

  /**
   * When converting, the deinterlace filter is the only optional segment:
   * the flags with it are the filter followed by the flags without it, and
   * the flags without it are encoder, audio and mapping blocks in order.
   */
  lemma InterlaceOnlyOptionalSegment(f: Form)
    requires f.shouldConvert
    ensures VideoFlags(f.(isInterlaced := true))
            == YadifFlag + IntToDecimal(f.yadifMode) + VideoFlags(f.(isInterlaced := false))
    ensures VideoFlags(f.(isInterlaced := false))
            == EncoderBlock + AudioBlock(f) + MappingBlock + StreamIdBlock
  {
    HeadBeforeFour(YadifFlag + IntToDecimal(f.yadifMode), EncoderBlock, AudioBlock(f), MappingBlock, StreamIdBlock);
  }

  // ---------------------------------------------------------------------
  // Final command
  // ---------------------------------------------------------------------

  /**
   * The command is the fixed prefix, the input URL, the flag block, one
   * space and the output URL; the input URL is always followed by a space,
   * and the output URL, which holds no space, is the last token.
   */
  lemma CommandLayout(f: Form)
    ensures StartsWith(FinalCommand(f), CommandPrefix)
    ensures OccursAt(InputUrl(f) + " ", FinalCommand(f), |CommandPrefix|)
    ensures EndsWith(FinalCommand(f), " " + OutputUrl(f.wowzaServer, f.wowzaPort, f.outputTimeout))
    ensures LastWord(FinalCommand(f), OutputUrl(f.wowzaServer, f.wowzaPort, f.outputTimeout))
  {
    var v, o := VideoFlags(f), OutputUrl(f.wowzaServer, f.wowzaPort, f.outputTimeout);
    VideoFlagsDelimited(f);
    if v != "" {
      assert v[..1] == v[..2][..1];
    }
    SpaceDelimited(CommandPrefix, InputUrl(f), v, o);
    SpaceThenWord(FinalCommand(f), o);
  }

  /** s ends with w, and the space before w is the last space in s. */
  predicate LastWord(s: string, w: string) {
    |w| < |s| && s[|s| - |w| - 1] == ' ' && forall k | |s| - |w| <= k < |s| :: s[k] != ' '
  }

  lemma SpaceThenWord(s: string, w: string)
    requires EndsWith(s, " " + w) && ' ' !in w
    ensures LastWord(s, w)
  {
    var n := |s| - |w|;
    assert s[n - 1..] == " " + w;
    forall k | n <= k < |s|
      ensures s[k] != ' '
    {
      assert s[k] == s[n - 1..][k - n + 1] == w[k - n];
    }
  }

  /** The generic shape behind CommandLayout: p + u + v + " " + o with v empty or space-led. */
  lemma SpaceDelimited(p: string, u: string, v: string, o: string)
    requires v == "" || StartsWith(v, " ")
    ensures var cmd := p + u + v + " " + o;
            StartsWith(cmd, p) && OccursAt(u + " ", cmd, |p|) && EndsWith(cmd, " " + o)
  {
    var cmd := p + u + v + " " + o;
    assert cmd == p + (u + (v + " " + o));
    assert cmd[..|p|] == p;
    assert cmd == (p + u + v) + (" " + o);
    if v == "" {
      assert cmd == p + (u + " ") + o;
    } else {
      assert cmd == p + (u + " ") + (v[1..] + " " + o) by {
        assert v == " " + v[1..];
      }
    }
    MiddlePiece(p, u + " ", cmd[|p| + |u| + 1..]);
  }

  /** When converting, the flag block carries the encoder and audio flags, and the filter if interlaced. */
  lemma ConvertFlagsPresent(f: Form)
    requires f.shouldConvert
    ensures Occurs("-vcodec", VideoFlags(f)) && Occurs("-acodec", VideoFlags(f))
    ensures f.isInterlaced ==> Occurs("-vf", VideoFlags(f))
  {
    var y, e, a, m := YadifSegment(f), EncoderBlock, AudioBlock(f), MappingBlock;
    EncoderBlockHasCodec();
    OccursInside("-vcodec", y, e, a);
    AudioBlockHasCodec(f);
    OccursInRight("-acodec", y + e, a);
    if f.isInterlaced {
      YadifSegmentHasFilter(f);
      OccursInLeft("-vf", y, e);
      OccursInLeft("-vf", y + e, a);
    }
    forall t | t in {"-vcodec", "-acodec", "-vf"} && Occurs(t, y + e + a)
      ensures Occurs(t, VideoFlags(f))
    {
      OccursInLeft(t, y + e + a, m);
      OccursInLeft(t, y + e + a + m, StreamIdBlock);
    }
  }

  lemma AudioBlockHasCodec(f: Form)
    ensures Occurs("-acodec", AudioBlock(f))
  {
    assert OccursAt("-acodec", AudioCodecFlag, 1);
    OccursInLeft("-acodec", AudioCodecFlag, f.audioCodec + AudioBitrateFlag + f.audioBitrate);
    assert AudioBlock(f) == AudioCodecFlag + (f.audioCodec + AudioBitrateFlag + f.audioBitrate);
  }

  lemma YadifSegmentHasFilter(f: Form)
    requires f.isInterlaced
    ensures Occurs("-vf", YadifSegment(f))
  {
    assert OccursAt("-vf", YadifFlag, 1);
    OccursInLeft("-vf", YadifFlag, IntToDecimal(f.yadifMode));
  }

  /** When converting, the command carries the encoder and audio flags, and the filter if interlaced. */
  lemma ConvertModeHasCodecFlags(f: Form)
    requires f.shouldConvert
    ensures Occurs("-vcodec", FinalCommand(f)) && Occurs("-acodec", FinalCommand(f))
    ensures f.isInterlaced ==> Occurs("-vf", FinalCommand(f))
  {
    var p, u, v := CommandPrefix, InputUrl(f), VideoFlags(f);
    var o := OutputUrl(f.wowzaServer, f.wowzaPort, f.outputTimeout);
    ConvertFlagsPresent(f);
    FlagsInCommand("-vcodec", p, u, v, o);
    FlagsInCommand("-acodec", p, u, v, o);
    if f.isInterlaced {
      FlagsInCommand("-vf", p, u, v, o);
    }
  }

  /** Whatever the flag block holds, the command holds. */
  lemma FlagsInCommand(t: string, p: string, u: string, v: string, o: string)
    requires Occurs(t, v)
    ensures Occurs(t, p + u + v + " " + o)
  {
    OccursInside(t, p + u, v, " ");
    OccursInLeft(t, p + u + v + " ", o);
  }

  /**
   * In copy mode the command is prefix, input URL, one space and output
   * URL; a pattern without a space that none of them holds is not in it.
   */
  lemma CopyCommandFree(t: string, p: string, u: string, o: string)
    requires |t| > 0 && ' ' !in t && |p| > 0 && p[|p| - 1] == ' '
    requires !Occurs(t, p) && !Occurs(t, u) && !Occurs(t, o)
    ensures !Occurs(t, p + u + "" + " " + o)
  {
    NoOccurrenceAcross(t, p, u);
    AbsentCharacter(t, " ", t[0]);
    NoOccurrenceAcross(t, p + u, " ");
    NoOccurrenceAcross(t, p + u + " ", o);
    assert p + u + "" + " " + o == p + u + " " + o;
  }

  /** The two video flags hold a 'v', which neither the prefix nor the output URL contains. */
  lemma CopyCommandFreeOfVideoFlag(t: string, f: Form)
    requires t == "-vcodec" || t == "-vf"
    requires !f.shouldConvert && InputTextFree(t, f)
    ensures !Occurs(t, FinalCommand(f))
  {
    var o := OutputUrl(f.wowzaServer, f.wowzaPort, f.outputTimeout);
    VideoFlagNotInInputUrl(t, f);
    CommandPrefixLacksV();
    AbsentCharacter(t, CommandPrefix, 'v');
    OutputUrlLacks('v', f.wowzaServer, f.wowzaPort, f.outputTimeout);
    AbsentCharacter(t, o, 'v');
    CopyCommandFree(t, CommandPrefix, InputUrl(f), o);
  }

  lemma VideoFlagNotInInputUrl(t: string, f: Form)
    requires t == "-vcodec" || t == "-vf"
    requires InputTextFree(t, f)
    ensures !Occurs(t, InputUrl(f))
  {
    InputQueryLacks('-');
    InputUrlFree(t, '-', 'v', f);
  }

  /** "-acodec" occurs nowhere in the output URL. */
  lemma OutputUrlFreeOfAudioFlag(server: int, port: int, timeout: int)
    ensures !Occurs("-acodec", OutputUrl(server, port, timeout))
  {
    var t := "-acodec";
    var s, p, o := IntToDecimal(server), IntToDecimal(port), IntToDecimal(timeout);
    DecimalLacks(server, 'a');
    DecimalLacks(port, 'a');
    DecimalLacks(timeout, 'a');
    OutputHeadFreeOfAudioFlag();
    OutputTailFreeOfAudioFlag();
    OutputQueryFreeOfAudioFlag();
    AbsentCharacter(t, s, 'a');
    AbsentCharacter(t, p, 'a');
    AbsentCharacter(t, o, 'a');
    OutputDelimiters();
    FiveNumbered(t, OutputHostHead, s, OutputHostTail, p, OutputQuery, o);
  }

  /**
   * Pieces that each lack t, where every seam is a digit next to a
   * character t does not start or end with, join without producing t.
   */
  lemma FiveNumbered(t: string, h: string, s: string, d: string, p: string, e: string, o: string)
    requires |t| > 0 && !Occurs(t, h) && !Occurs(t, s) && !Occurs(t, d)
    requires !Occurs(t, p) && !Occurs(t, e) && !Occurs(t, o)
    requires Separated(t, h, s) && Separated(t, h + s, d) && Separated(t, h + s + d, p)
    requires Separated(t, h + s + d + p, e) && Separated(t, h + s + d + p + e, o)
    ensures !Occurs(t, h + s + d + p + e + o)
  {
    NoOccurrenceAcross(t, h, s);
    NoOccurrenceAcross(t, h + s, d);
    NoOccurrenceAcross(t, h + s + d, p);
    NoOccurrenceAcross(t, h + s + d + p, e);
    NoOccurrenceAcross(t, h + s + d + p + e, o);
  }

  lemma OutputHeadFreeOfAudioFlag()
    ensures !Occurs("-acodec", OutputHostHead)
  {
    AbsentCharacter("-acodec", OutputHostHead, 'd');
  }

  lemma OutputTailFreeOfAudioFlag()
    ensures !Occurs("-acodec", OutputHostTail)
  {
    var t := "-acodec";
    AbsentCharacter(t, "-prod-wowza-eus2", 'c');
    AbsentCharacter(t, ".eastus2.cloudapp.azure.com", '-');
    AbsentCharacter(t, ":", 'a');
    NoOccurrenceAcross(t, "-prod-wowza-eus2", ".eastus2.cloudapp.azure.com");
    NoOccurrenceAcross(t, "-prod-wowza-eus2" + ".eastus2.cloudapp.azure.com", ":");
  }

  lemma OutputQueryFreeOfAudioFlag()
    ensures !Occurs("-acodec", OutputQuery)
  {
    AbsentCharacter("-acodec", OutputQuery, 'a');
  }

  /** "-acodec" occurs nowhere in the command prefix. */
  lemma CommandPrefixFreeOfAudioFlag()
    ensures !Occurs("-acodec", CommandPrefix)
  {
    var t := "-acodec";
    AbsentCharacter(t, "ffmpegcommand:", '-');
    AbsentCharacter(t, " -timeout 20000000", 'a');
    AbsentCharacter(t, " -rw_timeout 20000000", 'a');
    AbsentCharacter(t, " -i ", 'a');
    NoOccurrenceAcross(t, "ffmpegcommand:", " -timeout 20000000");
    NoOccurrenceAcross(t, "ffmpegcommand:" + " -timeout 20000000", " -rw_timeout 20000000");
    NoOccurrenceAcross(t, "ffmpegcommand:" + " -timeout 20000000" + " -rw_timeout 20000000", " -i ");
  }

  /** "-acodec" is in neither the prefix nor the output URL, and not in the input URL's fixed parts. */
  lemma CopyCommandFreeOfAudioFlag(f: Form)
    requires !f.shouldConvert && InputTextFree("-acodec", f)
    ensures !Occurs("-acodec", FinalCommand(f))
  {
    InputQueryLacks('-');
    InputUrlFree("-acodec", '-', 'o', f);
    CommandPrefixFreeOfAudioFlag();
    CommandPrefixLacksV();
    OutputUrlFreeOfAudioFlag(f.wowzaServer, f.wowzaPort, f.outputTimeout);
    CopyCommandFree("-acodec", CommandPrefix, InputUrl(f), OutputUrl(f.wowzaServer, f.wowzaPort, f.outputTimeout));
  }

  /**
   * The command carries "-vcodec", "-acodec" and "-vf" when and only when
   * the video is converted (the filter only if also interlaced), provided
   * the user text in the input URL does not contain those flags itself.
   */
  lemma CodecFlagsIffConverting(f: Form)
    requires !f.shouldConvert ==> InputTextFree("-vcodec", f) && InputTextFree("-acodec", f) && InputTextFree("-vf", f)
    ensures Occurs("-vcodec", FinalCommand(f)) <==> f.shouldConvert
    ensures Occurs("-acodec", FinalCommand(f)) <==> f.shouldConvert
    ensures Occurs("-vf", FinalCommand(f)) ==> f.shouldConvert
    ensures f.shouldConvert && f.isInterlaced ==> Occurs("-vf", FinalCommand(f))
  {
    if f.shouldConvert {
      ConvertModeHasCodecFlags(f);
    } else {
      CopyCommandFreeOfVideoFlag("-vcodec", f);
      CopyCommandFreeOfVideoFlag("-vf", f);
      CopyCommandFreeOfAudioFlag(f);
    }
  }

  /** The other numbers the form starts with, likewise. */
  lemma DefaultSmallNumbersRender()
    ensures IntToDecimal(400) == "400" && IntToDecimal(21) == "21" && IntToDecimal(1) == "1"
  {
    assert NatDigits(4) == "4";
    assert NatDigits(40) == "40";
    assert NatDigits(2) == "2";
  }

  lemma DefaultInputUrl()
    ensures InputUrl(DefaultForm)
            == "srt://" + "54.156.246.82" + ":" + "37301"
               + "?fc=5000000" + "&rcvbuf=100000000" + "&timeout=10000000"
               + "&latency=" + "400" + "&passphrase=" + "ch301_wsc_y84fmq1"
  {
    DefaultSmallNumbersRender();
  }

  lemma DefaultVideoFlags()
    ensures VideoFlags(DefaultForm)
            == " -vf yadif=mode=" + "1"
               + " -vcodec h264_nvenc" + " -s 1920x1080" + " -rc:v vbr" + " -cq:v 20" + " -pix_fmt yuv420p" + " -f mpegts"
               + " -acodec " + "aac" + " -b:a " + "192k"
               + " -map v:0" + " -map a:0?" + " -streamid 0:0x100" + " -streamid 1:0x101"
  {
    DefaultSmallNumbersRender();
  }

  lemma DefaultOutputUrl()
    ensures OutputUrl(21, 10011, 10000000)
            == "srt://wsc-wowza" + "21" + "-prod-wowza-eus2" + ".eastus2.cloudapp.azure.com" + ":"
               + "10011" + "?timeout=" + "10000000"
  {
    DefaultNumbersRender();
    DefaultSmallNumbersRender();
  }

  /** The whole command for the form's initial values, piece by piece. */
  lemma DefaultCommand()
    ensures FinalCommand(DefaultForm)
            == ("ffmpegcommand:" + " -timeout 20000000" + " -rw_timeout 20000000" + " -i ")
               + ("srt://" + "54.156.246.82" + ":" + "37301"
                  + "?fc=5000000" + "&rcvbuf=100000000" + "&timeout=10000000"
                  + "&latency=" + "400" + "&passphrase=" + "ch301_wsc_y84fmq1")
               + (" -vf yadif=mode=" + "1"
                  + " -vcodec h264_nvenc" + " -s 1920x1080" + " -rc:v vbr" + " -cq:v 20" + " -pix_fmt yuv420p" + " -f mpegts"
                  + " -acodec " + "aac" + " -b:a " + "192k"
                  + " -map v:0" + " -map a:0?" + " -streamid 0:0x100" + " -streamid 1:0x101")
               + " "
               + ("srt://wsc-wowza" + "21" + "-prod-wowza-eus2" + ".eastus2.cloudapp.azure.com" + ":"
                  + "10011" + "?timeout=" + "10000000")
  {
    DefaultInputUrl();
    DefaultVideoFlags();
    DefaultOutputUrl();
  }
}
