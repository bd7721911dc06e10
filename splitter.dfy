/**
 * handleCertFiles as the program runs it: a line scanner over the bundle,
 * two artifact files truncated once and then appended to, and the nested
 * scan loops that move one shared read position.
 */
module Splitter {
  import opened Text
  import opened SplitSpec
  import opened SplitProps

  /**
   * A line scanner over the bundle. After a successful Scan, `text` is the
   * line just read; once Scan has returned false, `text` is the empty string.
   */
  class Scanner {
    const lines: seq<string>
    var pos: nat
    var text: string

    ghost predicate Valid()
      reads this
    {
      pos <= |lines|
    }

    constructor (lines: seq<string>)
      ensures Valid() && this.lines == lines && pos == 0 && text == ""
    {
      this.lines := lines;
      pos := 0;
      text := "";
    }

    method Scan() returns (more: bool)
      requires Valid()
      modifies this
      ensures Valid()
      ensures more == (old(pos) < |lines|)
      ensures more ==> pos == old(pos) + 1 && text == lines[old(pos)]
      ensures !more ==> pos == old(pos) && text == ""
    {
      if pos < |lines| {
        text := lines[pos];
        pos := pos + 1;
        more := true;
      } else {
        text := "";
        more := false;
      }
    }
  }

  /**
   * One derived artifact (the .key or the .crt file). `content` is what the
   * file holds, as the chunks written to it; whether it can be opened and how
   * many chunks it takes belong to the environment.
   */
  class Artifact {
    var content: seq<string>
    const canOpen: bool
    const capacity: Capacity

    constructor (content: seq<string>, canOpen: bool, capacity: Capacity)
      ensures this.content == content && this.canOpen == canOpen && this.capacity == capacity
    {
      this.content := content;
      this.canOpen := canOpen;
      this.capacity := capacity;
    }

    /** Open for writing with create and truncate; a failed open leaves the file as it was. */
    method Open() returns (ok: bool)
      modifies this
      ensures ok == canOpen
      ensures content == if ok then [] else old(content)
    {
      ok := canOpen;
      if ok {
        content := [];
      }
    }

    /** Append one chunk, unless the file is full. */
    method WriteString(s: string) returns (ok: bool)
      modifies this
      ensures ok == Fits(|old(content)|, capacity)
      ensures content == if ok then old(content) + [s] else old(content)
    {
      ok := Fits(|content|, capacity);
      if ok {
        content := content + [s];
      }
    }
  }

  /** The current artifacts as one value. */
  function Snapshot(key: Artifact, crt: Artifact): Files
    reads key, crt
  {
    Files(key.content, crt.content)
  }

  /** The environment the two artifacts stand for. */
  function EnvOf(key: Artifact, crt: Artifact): Env {
    Env(crt.canOpen, key.canOpen, key.capacity, crt.capacity)
  }

  /** Top of the outer scan loop: resuming the scan here, outside any block, yields `target`. */
  ghost predicate AtScanTop(s: Scanner, lines: seq<string>, key: Artifact, crt: Artifact, target: Effect)
    reads s, key, crt
  {
    && s.Valid() && s.lines == lines
    && RunFrom(lines, s.pos, Scanning, Effect(Ok, Snapshot(key, crt)), key.capacity, crt.capacity) == target
  }

  /**
   * At the certificate test: either input is exhausted (and `text` is empty)
   * and the artifacts are final, or the line just read is not routed yet and
   * only a certificate start can claim it, as after a key block.
   */
  ghost predicate AtCertTest(s: Scanner, lines: seq<string>, key: Artifact, crt: Artifact, target: Effect)
    reads s, key, crt
  {
    && s.Valid() && s.lines == lines
    && (|| (s.pos == |lines| && s.text == "" && Effect(Ok, Snapshot(key, crt)) == target)
        || (&& 0 < s.pos && s.text == lines[s.pos - 1]
            && RunFrom(lines, s.pos - 1, AfterKey, Effect(Ok, Snapshot(key, crt)), key.capacity, crt.capacity) == target))
  }

  /**
   * The key branch: write the begin line just read, then every following line
   * through the next line holding the end marker, and advance once more.
   */
  method CopyKeyBlock(s: Scanner, key: Artifact, crt: Artifact, ghost lines: seq<string>, ghost target: Effect)
    returns (ok: bool)
    requires key != crt
    requires s.Valid() && s.lines == lines && 0 < s.pos && s.text == lines[s.pos - 1]
    requires RunFrom(lines, s.pos - 1, Scanning, Effect(Ok, Snapshot(key, crt)), key.capacity, crt.capacity) == target
    requires Contains(s.text, BeginKey)
    modifies s, key
    ensures ok ==> AtCertTest(s, lines, key, crt, target)
    ensures !ok ==> target == Effect(Err(WriteKeyFailed), Snapshot(key, crt))
    ensures old(s.pos) <= s.pos
  {
    ghost var k := s.pos - 1;
    assert Route(Scanning, lines[k]) == Step(ToKey, InKey);
    ok := key.WriteString(s.text + "\n");
    if !ok {
      ghost var failed := Effect(Err(WriteKeyFailed), Snapshot(key, crt));
      assert RunFrom(lines, k + 1, InKey, failed, key.capacity, crt.capacity) == failed;
      return;
    }
    while true
      invariant s.Valid() && s.lines == lines && 0 < s.pos
      invariant RunFrom(lines, s.pos, InKey, Effect(Ok, Snapshot(key, crt)), key.capacity, crt.capacity) == target
      decreases |lines| - s.pos
    {
      var more := s.Scan();
      if !more {
        assert Effect(Ok, Snapshot(key, crt)) == target;
        return;
      }
      k := s.pos - 1;
      ghost var next := if Contains(lines[k], EndKey) then AfterKey else InKey;
      assert Route(InKey, lines[k]) == Step(ToKey, next);
      ok := key.WriteString(s.text + "\n");
      if !ok {
        ghost var failed := Effect(Err(WriteKeyFailed), Snapshot(key, crt));
        assert RunFrom(lines, k + 1, next, failed, key.capacity, crt.capacity) == failed;
        return;
      }
      if Contains(s.text, EndKey) {
        // The extra advance after the key's end marker.
        more := s.Scan();
        return;
      }
    }
  }

  /**
   * The certificate branch: write the begin line just read, then every
   * following line through the next line holding the end marker, without
   * advancing further.
   */
  method CopyCertBlock(s: Scanner, key: Artifact, crt: Artifact, ghost lines: seq<string>, ghost target: Effect)
    returns (ok: bool)
    requires key != crt
    requires AtCertTest(s, lines, key, crt, target) && Contains(s.text, BeginCert)
    modifies s, crt
    ensures ok ==> AtScanTop(s, lines, key, crt, target)
    ensures !ok ==> target == Effect(Err(WriteCertFailed), Snapshot(key, crt))
    ensures old(s.pos) <= s.pos
  {
    EmptyContainsNoMarker(BeginCert);
    ghost var k := s.pos - 1;
    assert 0 <= k && s.text == lines[k];
    assert RunFrom(lines, k, AfterKey, Effect(Ok, Snapshot(key, crt)), key.capacity, crt.capacity) == target;
    assert Route(AfterKey, lines[k]) == Step(ToCert, InCert);
    ok := crt.WriteString(s.text + "\n");
    if !ok {
      ghost var failed := Effect(Err(WriteCertFailed), Snapshot(key, crt));
      assert Deliver(Effect(Ok, Snapshot(key, crt)), lines[k], ToCert, key.capacity, crt.capacity) == failed;
      assert RunFrom(lines, k + 1, InCert, failed, key.capacity, crt.capacity) == failed;
      return;
    }
    while true
      invariant s.Valid() && s.lines == lines && 0 < s.pos
      invariant RunFrom(lines, s.pos, InCert, Effect(Ok, Snapshot(key, crt)), key.capacity, crt.capacity) == target
      decreases |lines| - s.pos
    {
      var more := s.Scan();
      if !more {
        assert Effect(Ok, Snapshot(key, crt)) == target;
        return;
      }
      k := s.pos - 1;
      ghost var next := if Contains(lines[k], EndCert) then Scanning else InCert;
      assert Route(InCert, lines[k]) == Step(ToCert, next);
      ok := crt.WriteString(s.text + "\n");
      if !ok {
        ghost var failed := Effect(Err(WriteCertFailed), Snapshot(key, crt));
        assert RunFrom(lines, k + 1, next, failed, key.capacity, crt.capacity) == failed;
        return;
      }
      if Contains(s.text, EndCert) {
        return;
      }
    }
  }

  /**
   * The outer scan loop (main.go:162-208): read lines until input is
   * exhausted, handing each key start and each certificate start to its
   * copying branch; the first failed write ends the call with its error.
   */
  method ScanBundle(scanner: Scanner, key: Artifact, crt: Artifact, ghost lines: seq<string>, ghost target: Effect)
    returns (r: Outcome)
    requires key != crt
    requires AtScanTop(scanner, lines, key, crt, target)
    modifies scanner, key, crt
    ensures Effect(r, Snapshot(key, crt)) == target
  {
    while true
      invariant AtScanTop(scanner, lines, key, crt, target)
      decreases |lines| - scanner.pos
    {
      var more := scanner.Scan();
      if !more {
        break;
      }
      // Find the key and write it to its file.
      if Contains(scanner.text, BeginKey) {
        var ok := CopyKeyBlock(scanner, key, crt, lines, target);
        if !ok {
          return Err(WriteKeyFailed);
        }
      }
      // Find the certificates and write them to their file.
      if Contains(scanner.text, BeginCert) {
        var ok := CopyCertBlock(scanner, key, crt, lines, target);
        if !ok {
          return Err(WriteCertFailed);
        }
      }
    }
    return Ok;
  }

  /**
   * Split the bundle into the key artifact and the certificate artifact.
   * What it returns and leaves behind is Split of the bundle: the lines the
   * four-mode machine routes to each artifact, in input order, each followed
   * by a newline, with the error paths of opening and writing.
   */
  method HandleCertFiles(bundle: BundleFile, crt: Artifact, key: Artifact) returns (r: Outcome)
    requires crt != key
    modifies crt, key
    ensures Effect(r, Snapshot(key, crt)) == Split(bundle, EnvOf(key, crt), old(Snapshot(key, crt)))
  {
    if bundle.Unreadable? {
      return Err(OpenBundleFailed);
    }
    var ok := crt.Open();
    if !ok {
      return Err(OpenCertFailed);
    }
    ok := key.Open();
    if !ok {
      return Err(OpenKeyFailed);
    }
    ghost var target := Replay(Writes(bundle.lines), key.capacity, crt.capacity);
    RunMeetsSplit(bundle.lines, key.capacity, crt.capacity);
    var scanner := new Scanner(bundle.lines);
    r := ScanBundle(scanner, key, crt, bundle.lines, target);
  }
}
