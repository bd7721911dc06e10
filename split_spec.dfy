/**
 * What handleCertFiles computes, stated as a single pass over the bundle's
 * lines: a four-mode machine routes every line to the key artifact, to the
 * certificate artifact or to neither, and the routed lines are written in
 * input order to two artifacts that may refuse a write.
 */
module SplitSpec {
  import opened Text

  const BeginKey: string := "BEGIN EC PRIVATE KEY"
  const EndKey: string := "END EC PRIVATE KEY"
  const BeginCert: string := "BEGIN CERTIFICATE"
  const EndCert: string := "END CERTIFICATE"

  /** Where one line of the bundle goes. */
  datatype Dest = ToKey | ToCert | Skip

  /** Where the scan stands between two lines. */
  datatype Mode =
    | Scanning   // top of the outer scan loop
    | InKey      // copying a key block, its end marker not yet seen
    | AfterKey   // a key block just closed: the next line is only tested as a certificate start
    | InCert     // copying a certificate block, its end marker not yet seen

  datatype Step = Step(dest: Dest, next: Mode)

  /** One line read in mode `m`: where it goes and the mode for the next line. */
  function Route(m: Mode, line: string): Step {
    match m
    case Scanning =>
      if Contains(line, BeginKey) then Step(ToKey, InKey)
      else if Contains(line, BeginCert) then Step(ToCert, InCert)
      else Step(Skip, Scanning)
    case InKey =>
      Step(ToKey, if Contains(line, EndKey) then AfterKey else InKey)
    case AfterKey =>
      if Contains(line, BeginCert) then Step(ToCert, InCert) else Step(Skip, Scanning)
    case InCert =>
      Step(ToCert, if Contains(line, EndCert) then Scanning else InCert)
  }

  /** The destination of each line, reading `lines` from mode `m`: one per line. */
  function Tags(m: Mode, lines: seq<string>): (t: seq<Dest>)
    ensures |t| == |lines|
    decreases |lines|
  {
    if lines == [] then []
    else [Route(m, lines[0]).dest] + Tags(Route(m, lines[0]).next, lines[1..])
  }

  /** The mode after reading `lines` from mode `m`. */
  function Final(m: Mode, lines: seq<string>): Mode
    decreases |lines|
  {
    if lines == [] then m else Final(Route(m, lines[0]).next, lines[1..])
  }

  /** The lines tagged `d`, in input order. */
  function Routed(lines: seq<string>, tags: seq<Dest>, d: Dest): seq<string>
    requires |tags| == |lines|
    decreases |lines|
  {
    if lines == [] then []
    else (if tags[0] == d then [lines[0]] else []) + Routed(lines[1..], tags[1..], d)
  }

  /** The lines a whole bundle sends to the key artifact. */
  function KeyLines(lines: seq<string>): seq<string> {
    Routed(lines, Tags(Scanning, lines), ToKey)
  }

  /** The lines a whole bundle sends to the certificate artifact. */
  function CertLines(lines: seq<string>): seq<string> {
    Routed(lines, Tags(Scanning, lines), ToCert)
  }

  /** The lines of a whole bundle that reach neither artifact. */
  function SkippedLines(lines: seq<string>): seq<string> {
    Routed(lines, Tags(Scanning, lines), Skip)
  }

  // ---------------------------------------------------------------------
  // The order of writes and what the artifacts hold

  datatype Sink = KeyFile | CertFile

  /** One WriteString call: `line` followed by a newline, to `sink`. */
  datatype Write = Write(sink: Sink, line: string)

  function Emit(line: string, d: Dest): seq<Write> {
    match d
    case ToKey => [Write(KeyFile, line)]
    case ToCert => [Write(CertFile, line)]
    case Skip => []
  }

  /** The writes made for `lines` tagged `tags`, in the order they are made. */
  function Trace(lines: seq<string>, tags: seq<Dest>): seq<Write>
    requires |tags| == |lines|
    decreases |lines|
  {
    if lines == [] then [] else Emit(lines[0], tags[0]) + Trace(lines[1..], tags[1..])
  }

  /** The writes a whole bundle causes. */
  function Writes(lines: seq<string>): seq<Write> {
    Trace(lines, Tags(Scanning, lines))
  }

  /** The lines of the writes to `sink`, in order. */
  function OnlyTo(ws: seq<Write>, sink: Sink): seq<string>
    decreases |ws|
  {
    if ws == [] then []
    else (if ws[0].sink == sink then [ws[0].line] else []) + OnlyTo(ws[1..], sink)
  }

  /** What a file holds after each line is written followed by a newline. */
  function Terminated(lines: seq<string>): (r: seq<string>)
    ensures |r| == |lines|
    ensures forall i :: 0 <= i < |lines| ==> r[i] == lines[i] + "\n"
    decreases |lines|
  {
    if lines == [] then [] else [lines[0] + "\n"] + Terminated(lines[1..])
  }

  /** How many written chunks a file can take before a write to it fails. */
  datatype Capacity = Unbounded | AtMost(chunks: nat)

  /** A write to a file that already holds `n` chunks succeeds. */
  predicate Fits(n: nat, cap: Capacity) {
    cap.Unbounded? || n < cap.chunks
  }

  /** `n` chunks can all be written to the file. */
  predicate Within(n: nat, cap: Capacity) {
    cap.Unbounded? || n <= cap.chunks
  }

  datatype SplitError =
    | OpenBundleFailed   // main.go:140-143
    | OpenCertFailed     // main.go:147-150
    | OpenKeyFailed      // main.go:154-157
    | WriteKeyFailed     // main.go:167-170, 173-176
    | WriteCertFailed    // main.go:189-192, 195-198

  /** The error returned by handleCertFiles, or nil. */
  datatype Outcome = Ok | Err(error: SplitError)

  /** Contents of the key and the certificate artifact, as written chunks. */
  datatype Files = Files(key: seq<string>, crt: seq<string>)

  datatype Effect = Effect(status: Outcome, files: Files)

  /** One write, unless an earlier one has failed. */
  function Perform(e: Effect, w: Write, keyCap: Capacity, crtCap: Capacity): Effect {
    if e.status.Err? then e
    else match w.sink
      case KeyFile =>
        if Fits(|e.files.key|, keyCap) then Effect(Ok, e.files.(key := e.files.key + [w.line + "\n"]))
        else Effect(Err(WriteKeyFailed), e.files)
      case CertFile =>
        if Fits(|e.files.crt|, crtCap) then Effect(Ok, e.files.(crt := e.files.crt + [w.line + "\n"]))
        else Effect(Err(WriteCertFailed), e.files)
  }

  /** The writes `ws` made in order to two freshly truncated files, stopping at the first failure. */
  function Replay(ws: seq<Write>, keyCap: Capacity, crtCap: Capacity): Effect
    decreases |ws|
  {
    if ws == [] then Effect(Ok, Files([], []))
    else Perform(Replay(ws[..|ws| - 1], keyCap, crtCap), ws[|ws| - 1], keyCap, crtCap)
  }

  /** The writes a line routed to `d` causes, performed on `e`. */
  function Deliver(e: Effect, line: string, d: Dest, keyCap: Capacity, crtCap: Capacity): Effect {
    match d
    case Skip => e
    case ToKey => Perform(e, Write(KeyFile, line), keyCap, crtCap)
    case ToCert => Perform(e, Write(CertFile, line), keyCap, crtCap)
  }

  /**
   * The scan resumed at line `k` in mode `m` with the artifacts in `e`: the
   * result of routing and writing the remaining lines, stopping at the first
   * failed write.
   */
  function RunFrom(lines: seq<string>, k: nat, m: Mode, e: Effect, keyCap: Capacity, crtCap: Capacity): Effect
    requires k <= |lines|
    decreases |lines| - k
  {
    if k == |lines| || e.status.Err? then e
    else
      var s := Route(m, lines[k]);
      RunFrom(lines, k + 1, s.next, Deliver(e, lines[k], s.dest, keyCap, crtCap), keyCap, crtCap)
  }

  // ---------------------------------------------------------------------
  // The whole call

  /** The bundle as the splitter opens it: unreadable, or its lines. */
  datatype BundleFile = Unreadable | Readable(lines: seq<string>)

  /** Whether each artifact can be opened and how much it can take. */
  datatype Env = Env(crtOpens: bool, keyOpens: bool, keyCap: Capacity, crtCap: Capacity)

  /** What one call of handleCertFiles returns and leaves in the artifacts, given what they held before. */
  function Split(bundle: BundleFile, env: Env, before: Files): Effect {
    if bundle.Unreadable? then Effect(Err(OpenBundleFailed), before)
    else if !env.crtOpens then Effect(Err(OpenCertFailed), before)
    else if !env.keyOpens then Effect(Err(OpenKeyFailed), before.(crt := []))
    else Replay(Writes(bundle.lines), env.keyCap, env.crtCap)
  }

  // ---------------------------------------------------------------------
  // Prefix views used by the imperative splitter's loop invariants

  /** The mode once the first `k` lines are read. */
  ghost function ModeAt(lines: seq<string>, k: nat): Mode
    requires k <= |lines|
  {
    Final(Scanning, lines[..k])
  }

  /** The artifacts once the writes of the first `k` lines are made. */
  ghost function Progress(lines: seq<string>, k: nat, keyCap: Capacity, crtCap: Capacity): Effect
    requires k <= |lines|
  {
    Replay(Writes(lines[..k]), keyCap, crtCap)
  }
}
