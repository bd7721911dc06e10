# certupdater splitter and dispatch loop, in Dafny

certupdater obtains a Let's Encrypt certificate for a domain. It watches the
combined key-and-certificate bundle (one PEM file named after the domain)
and splits it into two derived artifacts, `<domain>.key` and `<domain>.crt`.
This project models two pieces of the program:

- **The splitter** `handleCertFiles`. It opens the bundle, then opens the
  `.crt` artifact, then the `.key` artifact, each with create and truncate.
  It reads the bundle line by line through one shared scanner, in three
  nested scan loops.
  - A line holding `BEGIN EC PRIVATE KEY` starts a key block. That line and
    every following line, through the next line holding
    `END EC PRIVATE KEY`, go to the key artifact. The scanner then advances
    once more.
  - The line the scanner holds is then tested for `BEGIN CERTIFICATE`. A
    match starts a certificate block, copied through the next line holding
    `END CERTIFICATE`.
  - Every copied line is written followed by a newline.
  - Any failure to open or to write ends the call with an error.
- **The exit policy of the dispatch loop** in `main`. Each update
  notification triggers a split. A failed split exits the process with
  status 1. An interrupt returns from `main`. Without the daemon flag the
  loop breaks after one event.

Modules:

- `Text` (text.dfy): `strings.Contains`, proved equal to "occurs at some
  index".
- `SplitSpec` (split_spec.dfy): the reference definitions.
  - A four-mode machine: `Scanning`, `InKey`, `AfterKey` and `InCert`.
    `AfterKey` is the extra advance after a key block: the next line is only
    tested as a certificate start.
  - `Tags`: the line-to-destination map. `Writes`: the order of writes.
  - `Replay`: the writes performed against two files of bounded capacity.
  - `Split`: the whole call, with its error paths.
  - `RunFrom`: the same computation resumed from a given line, which the
    imperative loops are checked against.
- `SplitProps` (split_props.dfy): what the splitter outputs.
  - Region characterisations, both directions.
  - The key-then-chain and chain-only cases.
  - The partition of the input lines.
  - Unterminated blocks.
  - The meaning of write failures.
  - No residue and idempotence.
  - `RunFrom` agrees with `Split`.
- `Splitter` (splitter.dfy): the imperative model.
  - A `Scanner` class with the Go rule that `Text()` is `""` once `Scan()`
    has returned false.
  - An `Artifact` class, whose file content is a sequence of written chunks.
  - The three loops as methods. `HandleCertFiles` is proved to leave exactly
    `Split`'s result and artifacts.
- `Lifecycle` (lifecycle.dfy): the dispatch loop.
  - `Dispatch` is the reference definition over a finite event trace.
  - `EventLoop` is the loop itself, proved equal to it.
  - Lemmas cover the daemon and one-shot behaviour.

Two behaviours of the code differ from what a stricter splitter would do;
the model states what the code does:

- **A block left open at end of input.** A stricter splitter would reject
  such a truncated bundle with a malformed-bundle error. The code copies the
  rest of the input into the artifact and returns nil (main.go:172-183,
  194-205, 210). See `UnterminatedKey` and `UnterminatedCert`.
- **When the artifacts are opened.** The artifacts are not opened lazily,
  when their begin marker is found: the code opens and truncates both
  before reading any line (main.go:147, 154). So a bundle without a key
  still empties the key artifact, and a failure to open the key artifact
  leaves the certificate artifact already truncated.

## Model

| member | source | states |
|---|---|---|
| Text.Contains | main.go:165 | reference definition of `strings.Contains`, used for the four marker tests (main.go:165, 178, 187, 200); characterised by ContainsIffOccurs |
| SplitSpec.Route | main.go:162-206 | reference definition of the branch structure: one line read in each of the four modes, where it goes and which mode follows, including the extra advance after a key block; characterised by TagAt, EntersKey, EntersCert, KeyTagIff, CertTagIff and AfterKeyEnd |
| SplitSpec.Perform | main.go:167-198 | reference definition of one write: appended if the file has room, otherwise the write error of that file with the files unchanged; after an earlier failure nothing happens; characterised by PerformOk and FailureIsFinal |
| SplitSpec.Replay | main.go:167-198 | reference definition of the writes made in order to two freshly truncated files, stopping at the first failure; characterised by ReplayComplete, ReplayMeaning, ReplayPrefix and ReplayRefusal |
| SplitSpec.Split | main.go:138-211 | reference definition of the whole call: bundle open, then `.crt` open, then `.key` open (the `.crt` already truncated when the last fails), then the writes; characterised by SplitReadable, SplitNoResidue, SplitIdempotent and met by HandleCertFiles |
| Lifecycle.Dispatch | main.go:115-132 | reference definition of the loop over an event trace: an interrupt returns, a failed split exits 1, without the daemon flag the first update breaks; characterised by DaemonRun, OneShot, InterruptFirst, FailureIff and SplitsBounded, and met by EventLoop |
| Text.ContainsIffOccurs | main.go:165 | the substring test holds exactly when the marker occurs at some index of the line |
| SplitSpec.Tags | main.go:162-208 | the scan assigns exactly one destination (key, certificate, neither) to every line of the bundle |
| SplitSpec.Terminated | main.go:167 | each written chunk is its line followed by a newline, one chunk per line, in order |
| SplitProps.TagAt | main.go:162-208 | line k's destination, and the mode after it, are given by routing it in the mode the first k lines leave: one shared read position, left to right |
| SplitProps.TraceRoutes | main.go:167-198 | the writes made to each artifact are exactly the lines routed to it, in input order |
| SplitProps.BundlePartition | main.go:162-208 | every line reaches at most one artifact: key lines, certificate lines and skipped lines together are the bundle, as multisets and in number |
| SplitProps.EntersKey | main.go:165-183 | one line leaves the scan inside a key block exactly when it is a key start in the outer loop or continues a key block without the end marker |
| SplitProps.EntersCert | main.go:187-205 | one line leaves the scan inside a certificate block exactly when it is a certificate start at the certificate test (not a key start in the outer loop) or continues a certificate block without the end marker |
| SplitProps.PerformOk | main.go:167-198 | a write that leaves the status nil followed a nil status and added its chunk to its own file only |
| SplitProps.InKeyIff | main.go:172-183 | after j lines the scan is inside a key block iff a key start came earlier with no key end marker after it |
| SplitProps.KeyTagIff | main.go:165-183 | a line goes to the key artifact iff it is a key start or follows one with no key end marker in between (both directions) |
| SplitProps.InCertIff | main.go:194-205 | after j lines the scan is inside a certificate block iff a certificate start came earlier with no certificate end marker after it |
| SplitProps.CertTagIff | main.go:187-205 | a line goes to the certificate artifact iff it is a certificate start or follows one with no certificate end marker in between (both directions) |
| SplitProps.AfterKeyEnd | main.go:178-187 | the line after a key end marker is consumed by the extra advance: never a key start, only possibly a certificate start, otherwise skipped |
| SplitProps.KeyBlockRun | main.go:165-183 | a complete key block read in the outer loop goes wholly to the key artifact and leaves the scan right after a key block |
| SplitProps.CertBlockRun | main.go:187-205 | a complete certificate block met at the certificate test goes wholly to the certificate artifact and returns the scan to the outer loop |
| SplitProps.ChainRun | main.go:162-208 | a chain of N complete certificate blocks goes wholly to the certificate artifact |
| SplitProps.KeyThenChain | main.go:162-208 | a key block followed by N certificate blocks: the key artifact gets the key block, the certificate artifact all N blocks, nothing is skipped |
| SplitProps.ChainOnly | main.go:187-206 | a bundle of N certificate blocks alone: all N go to the certificate artifact and nothing to the key artifact |
| SplitProps.KeyTail | main.go:172-183 | a key block without an end marker takes every line from its start to the end of input |
| SplitProps.UnterminatedKey | main.go:172-210 | a key block without an end marker is copied to the end of input, and on healthy artifacts the call still returns nil |
| SplitProps.CertTail | main.go:194-205 | a certificate block without an end marker takes every line from its start to the end of input |
| SplitProps.UnterminatedCert | main.go:194-210 | a certificate block without an end marker is copied to the end of input, and on healthy artifacts the call still returns nil |
| SplitProps.FailureIsFinal | main.go:168-176 | once a write has failed, no later line changes the result: the call returns that error with the artifacts as they were |
| SplitProps.RunFromMeetsReplay | main.go:162-208 | resuming the scan at any line, in the mode and with the artifacts the earlier lines left, ends as the whole split does |
| SplitProps.RunMeetsSplit | main.go:160-208 | the scan from the first line, with both artifacts just truncated, produces the specified writes |
| SplitProps.ReplayComplete | main.go:167-198 | when every write succeeds, each artifact holds exactly its routed lines, each followed by a newline |
| SplitProps.ReplayMeaning | main.go:167-198 | the writes all succeed iff each artifact can take all its lines; a failure is only ever a key-write or a certificate-write error |
| SplitProps.ReplayPrefix | main.go:167-198 | whatever fails, each artifact holds a prefix of what it would hold on a healthy disk |
| SplitProps.ReplayRefusal | main.go:167-198 | after a failed write the refusing artifact holds exactly as many chunks as it can take |
| SplitProps.SplitReadable | main.go:147-210 | with the bundle readable and both artifacts openable: nil iff both artifacts can take their lines; then they hold exactly the key lines and the certificate lines; otherwise a write error and prefixes of those |
| SplitProps.SplitNoResidue | main.go:147-158 | create and truncate: once both artifacts open, the result and what they hold do not depend on what they held before |
| SplitProps.SplitIdempotent | main.go:138-211 | splitting an unchanged bundle a second time returns the same result and leaves the same artifacts |
| Splitter.Scanner.constructor | main.go:160 | a new scanner stands before the first line with an empty current text |
| Splitter.Scanner.Scan | main.go:162 | Scan succeeds iff lines remain, advancing by one and exposing that line; otherwise it stays put and the text becomes empty |
| Splitter.Artifact.Open | main.go:147-157 | opening succeeds iff the environment allows it, and then empties the file; a failed open leaves it as it was |
| Splitter.Artifact.WriteString | main.go:167-176 | a write succeeds iff the file has room, and then appends exactly the chunk; a failed write changes nothing |
| Splitter.CopyKeyBlock | main.go:165-184 | the key branch leaves the scan where the machine's AfterKey mode says (or at end of input with empty text), or reports the failed key write that the specified split also ends with |
| Splitter.CopyCertBlock | main.go:187-206 | the certificate branch returns the scan to the outer loop as the machine says, or reports the failed certificate write the specified split ends with |
| Splitter.ScanBundle | main.go:162-210 | the outer loop returns the result, and leaves the artifacts, that resuming the specified scan from its position gives |
| Splitter.HandleCertFiles | main.go:138-211 | returns and leaves in the two artifacts exactly Split of the bundle: the three open failures in order, then the routed lines in order or the first write failure |
| Lifecycle.EventLoop | main.go:115-132 | the for/select loop makes the splits and ends the way the reference definition of the dispatch policy says |
| Lifecycle.ExitCode | main.go:120-130 | reference definition: `os.Exit(1)` is status 1; returning from main (on an interrupt, or on the one-shot break) is status 0; characterised by ExitStatus |
| Lifecycle.ExitStatus | main.go:117-130 | a finished loop leaves status 1 exactly when a failed split is reached while the loop still runs, and status 0 otherwise |
| Lifecycle.DaemonRun | main.go:115-132 | in daemon mode, with k successful updates before the first interrupt or failed split: returns after k splits on an interrupt, exits with status 1 after k+1 on a failure, and is still waiting after k if neither comes |
| Lifecycle.OneShot | main.go:129-131 | without the daemon flag one event ends the loop: one split for an update, none for an interrupt, and the loop never waits for a second event |
| Lifecycle.InterruptFirst | main.go:124-126 | an interrupt ends the loop by returning, with no split, whatever follows |
| Lifecycle.FailureIff | main.go:117-122 | the process exits with status 1 iff a failed split is reached while the loop still runs: after only successful updates, and past the first event only in daemon mode |
| Lifecycle.SplitsBounded | main.go:115-132 | at most one split per event; a loop still waiting has split on every event |

## Left out

- Flag parsing, creating the certificate directory, the ACME manager, the HTTP and TLS servers and the first HTTPS request (main.go:1-96): setup and network I/O outside the splitter and the loop.
- `checkFileUpdated` and `waitUntilFind`: file-system polling and watching. In the model they are only the source of `Updated` events in a trace.
- `signal.Notify` and the `select` between the two channels: concurrency. The model takes the events in the order the loop receives them.
- Lifecycle.EventLoop: an update event carries whether its split succeeds; the loop does not call `HandleCertFiles` itself, because the bundle and the disk state at each notification come from outside the loop.
- Splitter.Artifact.WriteString: a write either appends the whole chunk or fails and changes nothing. Go's `WriteString` may write part of a chunk before failing; that partial tail is not modelled.
- Splitter.Scanner.Scan: lines are given already split. The `bufio.Scanner` token limit (64 KiB per line), the stripping of a trailing `\r`, and the read error left unchecked after the loop (`scanner.Err` is never called) are not modelled.
- Splitter.Artifact.Open: file permission bits (`0600`) and the file paths derived from the domain are not modelled; an artifact's openability and capacity are fixed facts of the environment.
- The deferred `Close` calls and the wording of the error messages. The message for a failed `.crt` open says "key file" (main.go:149); only which error occurs is modelled.
- Log output and the debug print in the loop.
