/**
 * Properties of the splitter's specification: how the routing composes over
 * concatenated bundles, which lines form a key or a certificate region, what
 * a chain of blocks yields, and what the artifacts hold after a split.
 */
module SplitProps {
  import opened Text
  import opened SplitSpec

  // ---------------------------------------------------------------------
  // Composition over concatenation

  /** Reading `a + b` is reading `a`, then `b` from the mode `a` ends in. */
  lemma {:induction false} TagsAppend(m: Mode, a: seq<string>, b: seq<string>)
    ensures Tags(m, a + b) == Tags(m, a) + Tags(Final(m, a), b)
    ensures Final(m, a + b) == Final(Final(m, a), b)
    decreases |a|
  {
    if a == [] {
      assert a + b == b;
    } else {
      assert (a + b)[0] == a[0];
      assert (a + b)[1..] == a[1..] + b;
      TagsAppend(Route(m, a[0]).next, a[1..], b);
    }
  }

  lemma {:induction false} RoutedAppend(a: seq<string>, ta: seq<Dest>, b: seq<string>, tb: seq<Dest>, d: Dest)
    requires |ta| == |a| && |tb| == |b|
    ensures Routed(a + b, ta + tb, d) == Routed(a, ta, d) + Routed(b, tb, d)
    decreases |a|
  {
    if a == [] {
      assert a + b == b && ta + tb == tb;
    } else {
      assert (a + b)[1..] == a[1..] + b && (ta + tb)[1..] == ta[1..] + tb;
      RoutedAppend(a[1..], ta[1..], b, tb, d);
    }
  }

  lemma {:induction false} TraceAppend(a: seq<string>, ta: seq<Dest>, b: seq<string>, tb: seq<Dest>)
    requires |ta| == |a| && |tb| == |b|
    ensures Trace(a + b, ta + tb) == Trace(a, ta) + Trace(b, tb)
    decreases |a|
  {
    if a == [] {
      assert a + b == b && ta + tb == tb;
    } else {
      assert (a + b)[1..] == a[1..] + b && (ta + tb)[1..] == ta[1..] + tb;
      TraceAppend(a[1..], ta[1..], b, tb);
    }
  }

  lemma {:induction false} OnlyToAppend(a: seq<Write>, b: seq<Write>, sink: Sink)
    ensures OnlyTo(a + b, sink) == OnlyTo(a, sink) + OnlyTo(b, sink)
    decreases |a|
  {
    if a == [] {
      assert a + b == b;
    } else {
      assert (a + b)[1..] == a[1..] + b;
      OnlyToAppend(a[1..], b, sink);
    }
  }

  lemma {:induction false} TerminatedAppend(a: seq<string>, b: seq<string>)
    ensures Terminated(a + b) == Terminated(a) + Terminated(b)
  {
    var l, r := Terminated(a + b), Terminated(a) + Terminated(b);
    assert |l| == |r|;
    forall i | 0 <= i < |l| ensures l[i] == r[i] {
      if i < |a| { assert (a + b)[i] == a[i]; } else { assert (a + b)[i] == b[i - |a|]; }
    }
  }

  /** The writes to each artifact are exactly the lines routed to it, in order. */
  lemma {:induction false} TraceRoutes(lines: seq<string>, tags: seq<Dest>)
    requires |tags| == |lines|
    ensures OnlyTo(Trace(lines, tags), KeyFile) == Routed(lines, tags, ToKey)
    ensures OnlyTo(Trace(lines, tags), CertFile) == Routed(lines, tags, ToCert)
    decreases |lines|
  {
    if lines != [] {
      TraceRoutes(lines[1..], tags[1..]);
      OnlyToAppend(Emit(lines[0], tags[0]), Trace(lines[1..], tags[1..]), KeyFile);
      OnlyToAppend(Emit(lines[0], tags[0]), Trace(lines[1..], tags[1..]), CertFile);
    }
  }

  /** Every line is routed to exactly one of: the key artifact, the certificate artifact, neither. */
  lemma {:induction false} RoutedPartition(lines: seq<string>, tags: seq<Dest>)
    requires |tags| == |lines|
    ensures multiset(Routed(lines, tags, ToKey)) + multiset(Routed(lines, tags, ToCert))
            + multiset(Routed(lines, tags, Skip)) == multiset(lines)
    decreases |lines|
  {
    if lines != [] {
      RoutedPartition(lines[1..], tags[1..]);
      assert lines == [lines[0]] + lines[1..];
    }
  }

  /** No bundle line is duplicated, none reaches two artifacts, and none is invented. */
  lemma {:induction false} BundlePartition(lines: seq<string>)
    ensures multiset(KeyLines(lines)) + multiset(CertLines(lines)) + multiset(SkippedLines(lines))
            == multiset(lines)
    ensures |KeyLines(lines)| + |CertLines(lines)| + |SkippedLines(lines)| == |lines|
  {
    RoutedPartition(lines, Tags(Scanning, lines));
    assert |multiset(lines)| == |lines|;
  }

  // ---------------------------------------------------------------------
  // One line at a time

  /** The tag of line `k` is decided by the mode the first `k` lines leave. */
  lemma {:induction false} TagAt(lines: seq<string>, k: nat)
    requires k < |lines|
    ensures Tags(Scanning, lines)[k] == Route(ModeAt(lines, k), lines[k]).dest
    ensures ModeAt(lines, k + 1) == Route(ModeAt(lines, k), lines[k]).next
  {
    assert lines == lines[..k] + lines[k..];
    TagsAppend(Scanning, lines[..k], lines[k..]);
    assert lines[k..][0] == lines[k];
    assert lines[..k + 1] == lines[..k] + [lines[k]];
    TagsAppend(Scanning, lines[..k], [lines[k]]);
  }

  /** Reading one more line adds at most one write, to the artifact the line is routed to. */
  lemma {:induction false} ProgressStep(lines: seq<string>, k: nat, keyCap: Capacity, crtCap: Capacity)
    requires k < |lines|
    ensures ModeAt(lines, k + 1) == Route(ModeAt(lines, k), lines[k]).next
    ensures var d := Route(ModeAt(lines, k), lines[k]).dest;
            var before := Progress(lines, k, keyCap, crtCap);
            Progress(lines, k + 1, keyCap, crtCap) ==
              match d
              case Skip => before
              case ToKey => Perform(before, Write(KeyFile, lines[k]), keyCap, crtCap)
              case ToCert => Perform(before, Write(CertFile, lines[k]), keyCap, crtCap)
  {
    var a, x := lines[..k], lines[k];
    assert lines[..k + 1] == a + [x];
    TagsAppend(Scanning, a, [x]);
    var m := Final(Scanning, a);
    assert Tags(m, [x]) == [Route(m, x).dest];
    TraceAppend(a, Tags(Scanning, a), [x], Tags(m, [x]));
    var ws := Writes(a);
    var e := Emit(x, Route(m, x).dest);
    assert Writes(a + [x]) == ws + e;
    if e != [] {
      assert (ws + e)[..|ws|] == ws;
    } else {
      assert ws + e == ws;
    }
  }

  /** Once a write has failed, nothing the rest of the bundle causes changes the result. */
  lemma {:induction false} FailureIsFinal(lines: seq<string>, k: nat, keyCap: Capacity, crtCap: Capacity)
    requires k <= |lines|
    requires Progress(lines, k, keyCap, crtCap).status.Err?
    ensures Replay(Writes(lines), keyCap, crtCap) == Progress(lines, k, keyCap, crtCap)
    decreases |lines| - k
  {
    if k < |lines| {
      ProgressStep(lines, k, keyCap, crtCap);
      FailureIsFinal(lines, k + 1, keyCap, crtCap);
    } else {
      assert lines[..k] == lines;
    }
  }

  /** Resuming the scan after any prefix gives the same result as replaying the whole bundle's writes. */
  lemma {:induction false} RunFromMeetsReplay(lines: seq<string>, k: nat, keyCap: Capacity, crtCap: Capacity)
    requires k <= |lines|
    ensures RunFrom(lines, k, ModeAt(lines, k), Progress(lines, k, keyCap, crtCap), keyCap, crtCap)
            == Replay(Writes(lines), keyCap, crtCap)
    decreases |lines| - k
  {
    if Progress(lines, k, keyCap, crtCap).status.Err? {
      FailureIsFinal(lines, k, keyCap, crtCap);
    } else if k == |lines| {
      assert lines[..k] == lines;
    } else {
      ProgressStep(lines, k, keyCap, crtCap);
      RunFromMeetsReplay(lines, k + 1, keyCap, crtCap);
    }
  }

  /** The scan from the first line, with both artifacts just truncated, is the specified split. */
  lemma RunMeetsSplit(lines: seq<string>, keyCap: Capacity, crtCap: Capacity)
    ensures RunFrom(lines, 0, Scanning, Effect(Ok, Files([], [])), keyCap, crtCap)
            == Replay(Writes(lines), keyCap, crtCap)
  {
    assert lines[..0] == [];
    RunFromMeetsReplay(lines, 0, keyCap, crtCap);
  }

  // ---------------------------------------------------------------------
  // What the artifacts hold

  /** The lines meant for `sink` grow by the last write, if it goes there. */
  lemma {:induction false} OnlyToSnoc(ws: seq<Write>, sink: Sink)
    requires ws != []
    ensures var init, w := ws[..|ws| - 1], ws[|ws| - 1];
            var extra := if w.sink == sink then [w.line] else [];
            && OnlyTo(ws, sink) == OnlyTo(init, sink) + extra
            && Terminated(OnlyTo(ws, sink)) == Terminated(OnlyTo(init, sink)) + Terminated(extra)
  {
    var init, w := ws[..|ws| - 1], ws[|ws| - 1];
    assert ws == init + [w];
    assert [w][1..] == [];
    OnlyToAppend(init, [w], sink);
    TerminatedAppend(OnlyTo(init, sink), OnlyTo([w], sink));
  }

  /** The chunk a write adds to `sink`'s file when it succeeds. */
  function Added(w: Write, sink: Sink): seq<string> {
    if w.sink == sink then [w.line + "\n"] else []
  }

  /** A write that leaves the status Ok followed an Ok state and added its chunk to its own file only. */
  lemma PerformOk(e: Effect, w: Write, keyCap: Capacity, crtCap: Capacity)
    requires Perform(e, w, keyCap, crtCap).status == Ok
    ensures e.status == Ok
    ensures Perform(e, w, keyCap, crtCap).files == Files(e.files.key + Added(w, KeyFile), e.files.crt + Added(w, CertFile))
  {
  }

  /** The terminated lines meant for `sink` grow by the last write's chunk. */
  lemma {:induction false} TerminatedSnoc(ws: seq<Write>, sink: Sink)
    requires ws != []
    ensures Terminated(OnlyTo(ws, sink)) == Terminated(OnlyTo(ws[..|ws| - 1], sink)) + Added(ws[|ws| - 1], sink)
  {
    var w := ws[|ws| - 1];
    OnlyToSnoc(ws, sink);
    assert Terminated([w.line]) == [w.line + "\n"];
  }

  /** A replay that succeeds leaves each file holding the lines meant for it, each followed by a newline. */
  lemma {:induction false} ReplayComplete(ws: seq<Write>, keyCap: Capacity, crtCap: Capacity)
    ensures var e := Replay(ws, keyCap, crtCap);
            e.status == Ok ==> e.files == Files(Terminated(OnlyTo(ws, KeyFile)), Terminated(OnlyTo(ws, CertFile)))
    decreases |ws|
  {
    if ws != [] {
      var init, w := ws[..|ws| - 1], ws[|ws| - 1];
      var e0 := Replay(init, keyCap, crtCap);
      assert Replay(ws, keyCap, crtCap) == Perform(e0, w, keyCap, crtCap);
      if Replay(ws, keyCap, crtCap).status == Ok {
        PerformOk(e0, w, keyCap, crtCap);
        ReplayComplete(init, keyCap, crtCap);
        TerminatedSnoc(ws, KeyFile);
        TerminatedSnoc(ws, CertFile);
      }
    }
  }

  /**
   * Replaying writes into two fresh files succeeds exactly when both files can
   * take all the lines meant for them. Only a write can fail.
   */
  lemma {:induction false} ReplayMeaning(ws: seq<Write>, keyCap: Capacity, crtCap: Capacity)
    ensures var e := Replay(ws, keyCap, crtCap);
            && (e.status == Ok <==> Within(|OnlyTo(ws, KeyFile)|, keyCap) && Within(|OnlyTo(ws, CertFile)|, crtCap))
            && (e.status.Err? ==> e.status == Err(WriteKeyFailed) || e.status == Err(WriteCertFailed))
    decreases |ws|
  {
    if ws != [] {
      var init, w := ws[..|ws| - 1], ws[|ws| - 1];
      ReplayMeaning(init, keyCap, crtCap);
      ReplayComplete(init, keyCap, crtCap);
      OnlyToSnoc(ws, KeyFile);
      OnlyToSnoc(ws, CertFile);
      var e0 := Replay(init, keyCap, crtCap);
      assert Replay(ws, keyCap, crtCap) == Perform(e0, w, keyCap, crtCap);
    }
  }

  /** Whatever the capacities, each file holds a prefix of what it would hold on a healthy disk. */
  lemma {:induction false} ReplayPrefix(ws: seq<Write>, keyCap: Capacity, crtCap: Capacity)
    ensures var e := Replay(ws, keyCap, crtCap);
            && e.files.key <= Terminated(OnlyTo(ws, KeyFile))
            && e.files.crt <= Terminated(OnlyTo(ws, CertFile))
    decreases |ws|
  {
    if ws != [] {
      var init, w := ws[..|ws| - 1], ws[|ws| - 1];
      var e0 := Replay(init, keyCap, crtCap);
      assert Replay(ws, keyCap, crtCap) == Perform(e0, w, keyCap, crtCap);
      TerminatedSnoc(ws, KeyFile);
      TerminatedSnoc(ws, CertFile);
      if Perform(e0, w, keyCap, crtCap).status == Ok {
        PerformOk(e0, w, keyCap, crtCap);
        ReplayComplete(init, keyCap, crtCap);
      } else {
        ReplayPrefix(init, keyCap, crtCap);
        assert Perform(e0, w, keyCap, crtCap).files == e0.files;
        PrefixExtend(e0.files.key, Terminated(OnlyTo(init, KeyFile)), Added(w, KeyFile));
        PrefixExtend(e0.files.crt, Terminated(OnlyTo(init, CertFile)), Added(w, CertFile));
      }
    }
  }

  /** After a failed write the refusing file is full: it holds exactly as many chunks as it can take. */
  lemma {:induction false} ReplayRefusal(ws: seq<Write>, keyCap: Capacity, crtCap: Capacity)
    ensures var e := Replay(ws, keyCap, crtCap);
            && (e.status == Err(WriteKeyFailed) ==> keyCap.AtMost? && |e.files.key| == keyCap.chunks)
            && (e.status == Err(WriteCertFailed) ==> crtCap.AtMost? && |e.files.crt| == crtCap.chunks)
    decreases |ws|
  {
    if ws != [] {
      var init, w := ws[..|ws| - 1], ws[|ws| - 1];
      var e0 := Replay(init, keyCap, crtCap);
      assert Replay(ws, keyCap, crtCap) == Perform(e0, w, keyCap, crtCap);
      if e0.status == Ok {
        ReplayMeaning(init, keyCap, crtCap);
        ReplayComplete(init, keyCap, crtCap);
      } else {
        ReplayRefusal(init, keyCap, crtCap);
      }
    }
  }

  lemma {:induction false} PrefixExtend(a: seq<string>, b: seq<string>, c: seq<string>)
    requires a <= b
    ensures a <= b + c
  {
    assert (b + c)[..|a|] == b[..|a|];
  }

  // ---------------------------------------------------------------------
  // One call of the splitter

  /**
   * A call on a readable bundle with both artifacts openable: it returns nil
   * exactly when each artifact can take the lines routed to it, and then the
   * key artifact holds the key lines and the certificate artifact the
   * certificate lines, each followed by a newline, whatever they held before.
   * On a write failure both hold a prefix of that, and the refusing one is full.
   */
  lemma {:induction false} SplitReadable(lines: seq<string>, env: Env, before: Files)
    requires env.crtOpens && env.keyOpens
    ensures var e := Split(Readable(lines), env, before);
            && (e.status == Ok <==> Within(|KeyLines(lines)|, env.keyCap) && Within(|CertLines(lines)|, env.crtCap))
            && (e.status == Ok ==> e.files == Files(Terminated(KeyLines(lines)), Terminated(CertLines(lines))))
            && e.files.key <= Terminated(KeyLines(lines)) && e.files.crt <= Terminated(CertLines(lines))
            && (e.status.Err? ==> e.status == Err(WriteKeyFailed) || e.status == Err(WriteCertFailed))
            && (e.status == Err(WriteKeyFailed) ==> env.keyCap.AtMost? && |e.files.key| == env.keyCap.chunks)
            && (e.status == Err(WriteCertFailed) ==> env.crtCap.AtMost? && |e.files.crt| == env.crtCap.chunks)
  {
    ReplayRefusal(Writes(lines), env.keyCap, env.crtCap);
    ReplayMeaning(Writes(lines), env.keyCap, env.crtCap);
    ReplayComplete(Writes(lines), env.keyCap, env.crtCap);
    ReplayPrefix(Writes(lines), env.keyCap, env.crtCap);
    TraceRoutes(lines, Tags(Scanning, lines));
  }

  /** The split depends on the bundle and the environment only, never on the artifacts' old content. */
  lemma {:induction false} SplitNoResidue(lines: seq<string>, env: Env, old1: Files, old2: Files)
    requires env.crtOpens && env.keyOpens
    ensures Split(Readable(lines), env, old1) == Split(Readable(lines), env, old2)
  {
  }

  /** Splitting an unchanged bundle again leaves the same artifacts and returns the same result. */
  lemma {:induction false} SplitIdempotent(bundle: BundleFile, env: Env, before: Files)
    ensures var once := Split(bundle, env, before);
            Split(bundle, env, once.files) == once
  {
  }

  // ---------------------------------------------------------------------
  // Regions

  /** Line `b` is read in the outer loop and opens a key block. */
  ghost predicate KeyStart(lines: seq<string>, b: nat) {
    b < |lines| && ModeAt(lines, b) == Scanning && Contains(lines[b], BeginKey)
  }

  /** Line `b` reaches the certificate test and opens a certificate block there. */
  ghost predicate CertStart(lines: seq<string>, b: nat) {
    && b < |lines| && Contains(lines[b], BeginCert)
    && (ModeAt(lines, b) == AfterKey || (ModeAt(lines, b) == Scanning && !Contains(lines[b], BeginKey)))
  }

  /** No line strictly between `b` and `j` contains `marker`. */
  ghost predicate NoMarkerBetween(lines: seq<string>, marker: string, b: nat, j: nat)
    requires j <= |lines|
  {
    forall t :: b < t < j ==> !Contains(lines[t], marker)
  }

  /** One line leaves the scan inside a key block exactly when it opens one in the outer loop or continues one without its end marker. */
  lemma EntersKey(m: Mode, line: string)
    ensures Route(m, line).next == InKey <==>
            (m == InKey && !Contains(line, EndKey)) || (m == Scanning && Contains(line, BeginKey))
  {
  }

  /** One line leaves the scan inside a certificate block exactly when it opens one at the certificate test or continues one without its end marker. */
  lemma EntersCert(m: Mode, line: string)
    ensures Route(m, line).next == InCert <==>
            || (m == InCert && !Contains(line, EndCert))
            || (Contains(line, BeginCert) && (m == AfterKey || (m == Scanning && !Contains(line, BeginKey))))
  {
  }

  /** After `j` lines the scan is inside a key block exactly when a key block opened earlier and no end marker followed it. */
  lemma {:induction false} InKeyIff(lines: seq<string>, j: nat)
    requires j <= |lines|
    ensures ModeAt(lines, j) == InKey <==>
            exists b: nat :: b < j && KeyStart(lines, b) && NoMarkerBetween(lines, EndKey, b, j)
    decreases j
  {
    if j > 0 {
      InKeyIff(lines, j - 1);
      TagAt(lines, j - 1);
      var m := ModeAt(lines, j - 1);
      EntersKey(m, lines[j - 1]);
      if ModeAt(lines, j) == InKey {
        if m == InKey {
          var b: nat :| b < j - 1 && KeyStart(lines, b) && NoMarkerBetween(lines, EndKey, b, j - 1);
          assert NoMarkerBetween(lines, EndKey, b, j);
        } else {
          assert KeyStart(lines, j - 1) && NoMarkerBetween(lines, EndKey, j - 1, j);
        }
      }
      if exists b: nat :: b < j && KeyStart(lines, b) && NoMarkerBetween(lines, EndKey, b, j) {
        var b: nat :| b < j && KeyStart(lines, b) && NoMarkerBetween(lines, EndKey, b, j);
        if b < j - 1 {
          assert NoMarkerBetween(lines, EndKey, b, j - 1);
          assert !Contains(lines[j - 1], EndKey);
        }
      }
    }
  }

  /**
   * A line goes to the key artifact exactly when it opens a key block or
   * follows an opened key block with no end marker in between: the key output
   * is every region from a key start through the next end marker, inclusive.
   * The start line itself is never tested for the end marker.
   */
  lemma {:induction false} KeyTagIff(lines: seq<string>, j: nat)
    requires j < |lines|
    ensures Tags(Scanning, lines)[j] == ToKey <==>
            exists b: nat :: b <= j && KeyStart(lines, b) && NoMarkerBetween(lines, EndKey, b, j)
  {
    TagAt(lines, j);
    InKeyIff(lines, j);
    if KeyStart(lines, j) {
      assert NoMarkerBetween(lines, EndKey, j, j);
    }
  }

  /** After `j` lines the scan is inside a certificate block exactly when one opened earlier and no end marker followed it. */
  lemma {:induction false} InCertIff(lines: seq<string>, j: nat)
    requires j <= |lines|
    ensures ModeAt(lines, j) == InCert <==>
            exists b: nat :: b < j && CertStart(lines, b) && NoMarkerBetween(lines, EndCert, b, j)
    decreases j
  {
    if j > 0 {
      InCertIff(lines, j - 1);
      TagAt(lines, j - 1);
      var m := ModeAt(lines, j - 1);
      EntersCert(m, lines[j - 1]);
      if ModeAt(lines, j) == InCert {
        if m == InCert {
          var b: nat :| b < j - 1 && CertStart(lines, b) && NoMarkerBetween(lines, EndCert, b, j - 1);
          assert NoMarkerBetween(lines, EndCert, b, j);
        } else {
          assert CertStart(lines, j - 1) && NoMarkerBetween(lines, EndCert, j - 1, j);
        }
      }
      if exists b: nat :: b < j && CertStart(lines, b) && NoMarkerBetween(lines, EndCert, b, j) {
        var b: nat :| b < j && CertStart(lines, b) && NoMarkerBetween(lines, EndCert, b, j);
        if b < j - 1 {
          assert NoMarkerBetween(lines, EndCert, b, j - 1);
          assert !Contains(lines[j - 1], EndCert);
        }
      }
    }
  }

  /** A line goes to the certificate artifact exactly when it lies in a region from a certificate start through the next end marker. */
  lemma {:induction false} CertTagIff(lines: seq<string>, j: nat)
    requires j < |lines|
    ensures Tags(Scanning, lines)[j] == ToCert <==>
            exists b: nat :: b <= j && CertStart(lines, b) && NoMarkerBetween(lines, EndCert, b, j)
  {
    TagAt(lines, j);
    InCertIff(lines, j);
    if CertStart(lines, j) {
      assert NoMarkerBetween(lines, EndCert, j, j);
    }
  }

  /**
   * The line after the end marker of a key block is consumed by the extra
   * scan: it is never a key start, only a possible certificate start, and
   * otherwise reaches neither artifact.
   */
  lemma {:induction false} AfterKeyEnd(lines: seq<string>, j: nat)
    requires j + 1 < |lines|
    requires ModeAt(lines, j) == InKey && Contains(lines[j], EndKey)
    ensures Tags(Scanning, lines)[j] == ToKey
    ensures ModeAt(lines, j + 1) == AfterKey
    ensures Tags(Scanning, lines)[j + 1] == if Contains(lines[j + 1], BeginCert) then ToCert else Skip
  {
    TagAt(lines, j);
    TagAt(lines, j + 1);
  }

  // ---------------------------------------------------------------------
  // Blocks left open at end of input

  ghost predicate Uniform(tags: seq<Dest>, d: Dest) {
    forall i :: 0 <= i < |tags| ==> tags[i] == d
  }

  lemma {:induction false} RoutedUniform(lines: seq<string>, tags: seq<Dest>, d: Dest)
    requires |tags| == |lines| && Uniform(tags, d)
    ensures Routed(lines, tags, d) == lines
    ensures forall e :: e != d ==> Routed(lines, tags, e) == []
    decreases |lines|
  {
    if lines != [] {
      RoutedUniform(lines[1..], tags[1..], d);
      assert lines == [lines[0]] + lines[1..];
    }
  }

  lemma {:induction false} InKeyRun(rest: seq<string>)
    requires forall i :: 0 <= i < |rest| ==> !Contains(rest[i], EndKey)
    ensures Uniform(Tags(InKey, rest), ToKey) && Final(InKey, rest) == InKey
    decreases |rest|
  {
    if rest != [] {
      InKeyRun(rest[1..]);
    }
  }

  lemma {:induction false} InCertRun(rest: seq<string>)
    requires forall i :: 0 <= i < |rest| ==> !Contains(rest[i], EndCert)
    ensures Uniform(Tags(InCert, rest), ToCert) && Final(InCert, rest) == InCert
    decreases |rest|
  {
    if rest != [] {
      InCertRun(rest[1..]);
    }
  }

  /** An unterminated key block routes every line from its start to the key artifact. */
  lemma {:induction false} KeyTail(lines: seq<string>, b: nat)
    requires KeyStart(lines, b) && NoMarkerBetween(lines, EndKey, b, |lines|)
    ensures KeyLines(lines) == KeyLines(lines[..b]) + lines[b..]
    ensures CertLines(lines) == CertLines(lines[..b])
  {
    var a, r := lines[..b], lines[b..];
    assert lines == a + r;
    TagsAppend(Scanning, a, r);
    assert r == [lines[b]] + r[1..];
    assert forall i :: 0 <= i < |r[1..]| ==> r[1..][i] == lines[b + 1 + i];
    InKeyRun(r[1..]);
    var tr := Tags(ModeAt(lines, b), r);
    assert tr == [ToKey] + Tags(InKey, r[1..]);
    assert Uniform(tr, ToKey);
    RoutedAppend(a, Tags(Scanning, a), r, tr, ToKey);
    RoutedAppend(a, Tags(Scanning, a), r, tr, ToCert);
    RoutedUniform(r, tr, ToKey);
  }

  /**
   * A key block whose end marker never comes takes every remaining line into
   * the key artifact, and on healthy artifacts the split still returns nil.
   */
  lemma {:induction false} UnterminatedKey(lines: seq<string>, b: nat, before: Files)
    requires KeyStart(lines, b) && NoMarkerBetween(lines, EndKey, b, |lines|)
    ensures KeyLines(lines) == KeyLines(lines[..b]) + lines[b..]
    ensures CertLines(lines) == CertLines(lines[..b])
    ensures Split(Readable(lines), Env(true, true, Unbounded, Unbounded), before)
            == Effect(Ok, Files(Terminated(KeyLines(lines[..b]) + lines[b..]), Terminated(CertLines(lines[..b]))))
  {
    KeyTail(lines, b);
    SplitReadable(lines, Env(true, true, Unbounded, Unbounded), before);
  }

  /** An unterminated certificate block routes every line from its start to the certificate artifact. */
  lemma {:induction false} CertTail(lines: seq<string>, b: nat)
    requires CertStart(lines, b) && NoMarkerBetween(lines, EndCert, b, |lines|)
    ensures CertLines(lines) == CertLines(lines[..b]) + lines[b..]
    ensures KeyLines(lines) == KeyLines(lines[..b])
  {
    var a, r := lines[..b], lines[b..];
    assert lines == a + r;
    TagsAppend(Scanning, a, r);
    assert r == [lines[b]] + r[1..];
    assert forall i :: 0 <= i < |r[1..]| ==> r[1..][i] == lines[b + 1 + i];
    InCertRun(r[1..]);
    var tr := Tags(ModeAt(lines, b), r);
    assert Route(ModeAt(lines, b), lines[b]) == Step(ToCert, InCert);
    assert tr == [ToCert] + Tags(InCert, r[1..]);
    assert Uniform(tr, ToCert);
    RoutedAppend(a, Tags(Scanning, a), r, tr, ToKey);
    RoutedAppend(a, Tags(Scanning, a), r, tr, ToCert);
    RoutedUniform(r, tr, ToCert);
  }

  /**
   * A certificate block whose end marker never comes takes every remaining
   * line into the certificate artifact, and on healthy artifacts the split
   * still returns nil.
   */
  lemma {:induction false} UnterminatedCert(lines: seq<string>, b: nat, before: Files)
    requires CertStart(lines, b) && NoMarkerBetween(lines, EndCert, b, |lines|)
    ensures CertLines(lines) == CertLines(lines[..b]) + lines[b..]
    ensures KeyLines(lines) == KeyLines(lines[..b])
    ensures Split(Readable(lines), Env(true, true, Unbounded, Unbounded), before)
            == Effect(Ok, Files(Terminated(KeyLines(lines[..b])), Terminated(CertLines(lines[..b]) + lines[b..])))
  {
    CertTail(lines, b);
    SplitReadable(lines, Env(true, true, Unbounded, Unbounded), before);
  }

  // ---------------------------------------------------------------------
  // A key block followed by a certificate chain

  /** A key block: begin marker first, end marker last and nowhere in between. */
  ghost predicate IsKeyBlock(block: seq<string>) {
    && |block| >= 2
    && Contains(block[0], BeginKey)
    && Contains(block[|block| - 1], EndKey)
    && forall i :: 0 < i < |block| - 1 ==> !Contains(block[i], EndKey)
  }

  /** A certificate block: begin marker first (and no key begin marker there), end marker last and nowhere in between. */
  ghost predicate IsCertBlock(block: seq<string>) {
    && |block| >= 2
    && Contains(block[0], BeginCert) && !Contains(block[0], BeginKey)
    && Contains(block[|block| - 1], EndCert)
    && forall i :: 0 < i < |block| - 1 ==> !Contains(block[i], EndCert)
  }

  function Flatten(blocks: seq<seq<string>>): seq<string>
    decreases |blocks|
  {
    if blocks == [] then [] else blocks[0] + Flatten(blocks[1..])
  }

  lemma {:induction false} KeyBlockRun(block: seq<string>)
    requires IsKeyBlock(block)
    ensures Uniform(Tags(Scanning, block), ToKey) && Final(Scanning, block) == AfterKey
  {
    var body := block[1..];
    var mid, last := body[..|body| - 1], body[|body| - 1];
    assert body == mid + [last];
    assert forall i :: 0 <= i < |mid| ==> mid[i] == block[i + 1];
    InKeyRun(mid);
    TagsAppend(InKey, mid, [last]);
  }

  lemma {:induction false} CertBlockRun(m: Mode, block: seq<string>)
    requires m == Scanning || m == AfterKey
    requires IsCertBlock(block)
    ensures Uniform(Tags(m, block), ToCert) && Final(m, block) == Scanning
  {
    var body := block[1..];
    var mid, last := body[..|body| - 1], body[|body| - 1];
    assert body == mid + [last];
    assert forall i :: 0 <= i < |mid| ==> mid[i] == block[i + 1];
    InCertRun(mid);
    TagsAppend(InCert, mid, [last]);
  }

  lemma {:induction false} UniformAppend(a: seq<Dest>, b: seq<Dest>, d: Dest)
    requires Uniform(a, d) && Uniform(b, d)
    ensures Uniform(a + b, d)
  {
  }

  lemma {:induction false} ChainRun(m: Mode, certs: seq<seq<string>>)
    requires m == Scanning || m == AfterKey
    requires forall i :: 0 <= i < |certs| ==> IsCertBlock(certs[i])
    ensures Uniform(Tags(m, Flatten(certs)), ToCert)
    ensures Final(m, Flatten(certs)) == if certs == [] then m else Scanning
    decreases |certs|
  {
    if certs != [] {
      CertBlockRun(m, certs[0]);
      ChainRun(Scanning, certs[1..]);
      TagsAppend(m, certs[0], Flatten(certs[1..]));
      UniformAppend(Tags(m, certs[0]), Tags(Scanning, Flatten(certs[1..])), ToCert);
    }
  }

  /**
   * A bundle made of one key block and a chain of certificate blocks splits
   * into exactly that key block and the whole chain, in order: the
   * certificate branch is re-entered for every block of the chain.
   */
  lemma {:induction false} KeyThenChain(key: seq<string>, certs: seq<seq<string>>)
    requires IsKeyBlock(key)
    requires forall i :: 0 <= i < |certs| ==> IsCertBlock(certs[i])
    ensures KeyLines(key + Flatten(certs)) == key
    ensures CertLines(key + Flatten(certs)) == Flatten(certs)
    ensures SkippedLines(key + Flatten(certs)) == []
  {
    var chain := Flatten(certs);
    KeyBlockRun(key);
    ChainRun(AfterKey, certs);
    TagsAppend(Scanning, key, chain);
    var tk, tc := Tags(Scanning, key), Tags(AfterKey, chain);
    RoutedUniform(key, tk, ToKey);
    RoutedUniform(chain, tc, ToCert);
    RoutedAppend(key, tk, chain, tc, ToKey);
    RoutedAppend(key, tk, chain, tc, ToCert);
    RoutedAppend(key, tk, chain, tc, Skip);
  }

  /** A bundle made only of certificate blocks sends all of them, in order, to the certificate artifact. */
  lemma {:induction false} ChainOnly(certs: seq<seq<string>>)
    requires forall i :: 0 <= i < |certs| ==> IsCertBlock(certs[i])
    ensures CertLines(Flatten(certs)) == Flatten(certs)
    ensures KeyLines(Flatten(certs)) == []
  {
    ChainRun(Scanning, certs);
    RoutedUniform(Flatten(certs), Tags(Scanning, Flatten(certs)), ToCert);
  }
}
