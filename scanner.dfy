/**
 * `Scanner::process_file`: scan a source file line by line for `ref_struct!` invocations,
 * hand the lines of each invocation's raw string to `StructWriter::from_toml`, and write the
 * generated code of each one to an output file named after the invocation's line number.
 *
 * The file's lines and the TOML parser are parameters; the output directory is modelled by
 * the list of files written, in order. The scan is stated for any `gen` that turns an
 * invocation's text into generated code; `Handler(parse)` is the one `process_file` uses:
 * `from_toml` followed by `write_struct`.
 */
module Scanner {
  import opened Wrappers
  import opened Toml
  import opened Config
  import Emit
  import Text

  /** The text that opens an invocation. */
  const Marker: string := "ref_struct!"
  /** The text that closes the raw string of an invocation. */
  const Terminator: string := "\"#"
  const LocationPrefix: string := "ref_struct macro at "
  const UnterminatedSuffix: string := " is not a raw string literal"

  /** One output file: `out_dir/<line>` holding `contents`. */
  datatype Output = Output(line: nat, contents: string)

  /**
   * How the scan ends: `Ok(())`, an `io::Error` of kind `Other` with its message, or a panic
   * of `write_struct` (it indexes the first field of a declaration without fields).
   */
  datatype Status = Done | Failed(message: string) | Panicked

  /** What one invocation's text yields: a rejection with its reason, the panic, or code. */
  datatype Generated = Rejected(reason: string) | NoFields | Code(text: string)

  /** `StructWriter::from_toml(&s)` and then `sw.write_struct()`. */
  function Handle(parse: string -> Document, body: string): Generated {
    match Configure(parse(body))
    case Err(e) => Rejected(e)
    case Ok(sw) => if Emit.Emittable(sw) then Code(Emit.WriteStruct(sw)) else NoFields
  }

  function Handler(parse: string -> Document): string -> Generated {
    body => Handle(parse, body)
  }

  /** The files written, in order, and how the scan ended. */
  datatype Outcome = Outcome(written: seq<Output>, status: Status)

  function Prepend(o: Output, r: Outcome): Outcome {
    Outcome([o] + r.written, r.status)
  }

  function Append(ws: seq<Output>, r: Outcome): Outcome {
    Outcome(ws + r.written, r.status)
  }

  /** The first line at or after `from` that contains `pat`, or `|lines|` if there is none. */
  function FindLine(lines: seq<string>, from: nat, pat: string): (r: nat)
    requires from <= |lines|
    ensures from <= r <= |lines|
    ensures r < |lines| ==> Text.Contains(lines[r], pat)
    ensures forall j :: from <= j < r ==> !Text.Contains(lines[j], pat)
    decreases |lines| - from
  {
    if from == |lines| then |lines|
    else if Text.Contains(lines[from], pat) then from
    else FindLine(lines, from + 1, pat)
  }

  /** `s.push_str(&l); s.push('\n')` for each line, in order. */
  function Joined(ls: seq<string>): string {
    if ls == [] then "" else Joined(ls[..|ls| - 1]) + ls[|ls| - 1] + "\n"
  }

  /** The message of an invocation's errors: `ref_struct macro at <path>:<line>`. */
  function Location(path: string, line: nat): string {
    LocationPrefix + path + ":" + Text.NatToString(line)
  }

  /**
   * The scan from line index `from` on, outside any invocation, with `errstr` the message
   * last formatted: find the next marker line, or finish.
   */
  function ScanFrom(path: string, lines: seq<string>, from: nat, errstr: string,
                    gen: string -> Generated): Outcome
    requires from <= |lines|
    decreases |lines| - from, 2
  {
    var m := FindLine(lines, from, Marker);
    if m == |lines| then Outcome([], Done) else BlockAt(path, lines, m, errstr, gen)
  }

  /**
   * The invocation whose marker is on line index `m`: its raw string is every following line
   * up to the first one containing the terminator, which is itself left out. A missing
   * terminator fails with the stale `errstr`; a rejected declaration fails with the
   * invocation's location and the reason; otherwise the generated code goes to file `m + 1`
   * and the scan goes on after the terminator line.
   */
  function BlockAt(path: string, lines: seq<string>, m: nat, errstr: string,
                   gen: string -> Generated): Outcome
    requires m < |lines|
    decreases |lines| - m, 1
  {
    var t := FindLine(lines, m + 1, Terminator);
    if t == |lines| then Outcome([], Failed(errstr + UnterminatedSuffix))
    else Closed(path, lines, m, t, gen)
  }

  /** The invocation on line index `m`, closed on line index `t`. */
  function Closed(path: string, lines: seq<string>, m: nat, t: nat, gen: string -> Generated): Outcome
    requires m < t < |lines|
    decreases |lines| - m, 0
  {
    var err := Location(path, m + 1);
    match gen(Joined(lines[m + 1..t]))
    case Rejected(e) => Outcome([], Failed(err + " " + e))
    case NoFields => Outcome([], Panicked)
    case Code(text) => Prepend(Output(m + 1, text), ScanFrom(path, lines, t + 1, err, gen))
  }

  lemma AppendPrepend(ws: seq<Output>, o: Output, r: Outcome)
    ensures Append(ws + [o], r) == Append(ws, Prepend(o, r))
  {
    assert ws + [o] + r.written == ws + ([o] + r.written);
  }

  lemma AppendNothing(ws: seq<Output>, st: Status)
    ensures Append(ws, Outcome([], st)) == Outcome(ws, st)
  {
    assert ws + [] == ws;
  }

  lemma JoinedStep(ls: seq<string>, l: string)
    ensures Joined(ls + [l]) == Joined(ls) + l + "\n"
  {
    assert (ls + [l])[..|ls|] == ls;
  }

  /**
   * `process_file(in_file, out_dir)` on a file whose lines are `lines`. The method follows
   * the source loop: `startline` is `Some(marker line + 1)` inside an invocation, `s`
   * collects the invocation's lines, and `errstr` is set on each terminator line.
   */
  method ProcessFile(path: string, lines: seq<string>, gen: string -> Generated) returns (r: Outcome)
    ensures r == ScanFrom(path, lines, 0, "", gen)
  {
    var startline: Option<nat> := None;
    var s := "";
    var errstr := "";
    var written: seq<Output> := [];
    var i := 0;
    RunIsScan(path, lines, gen);
    while i < |lines|
      invariant 0 <= i <= |lines|
      invariant Run(path, lines, gen, i, startline, s, errstr, written) == ScanFrom(path, lines, 0, "", gen)
    {
      var l := lines[i];
      if startline.None? {
        if Text.Contains(l, Marker) {
          startline := Some(i + 1);
        }
      } else if !Text.Contains(l, Terminator) {
        s := s + l + "\n";
      } else {
        errstr := Location(path, startline.value);
        var g := gen(s);
        if g.Rejected? {
          return Outcome(written, Failed(errstr + " " + g.reason));
        } else if g.NoFields? {
          return Outcome(written, Panicked);
        }
        var contents := g.text;
        s := "";
        written := written + [Output(startline.value, contents)];
        startline := None;
      }
      i := i + 1;
    }
    if startline.Some? {
      r := Outcome(written, Failed(errstr + UnterminatedSuffix));
    } else {
      r := Outcome(written, Done);
    }
  }

  /**
   * The loop of `process_file` read line by line from line index `i` on, in the state
   * `startline`, `s`, `errstr`, with `written` the files written so far.
   */
  ghost function Run(path: string, lines: seq<string>, gen: string -> Generated, i: nat,
                     startline: Option<nat>, s: string, errstr: string, written: seq<Output>): Outcome
    requires i <= |lines|
    decreases |lines| - i
  {
    if i == |lines| then
      if startline.Some? then Outcome(written, Failed(errstr + UnterminatedSuffix)) else Outcome(written, Done)
    else
      var l := lines[i];
      if startline.None? then
        Run(path, lines, gen, i + 1, if Text.Contains(l, Marker) then Some(i + 1) else None, s, errstr, written)
      else if !Text.Contains(l, Terminator) then
        Run(path, lines, gen, i + 1, startline, s + l + "\n", errstr, written)
      else
        var err := Location(path, startline.value);
        match gen(s)
        case Rejected(e) => Outcome(written, Failed(err + " " + e))
        case NoFields => Outcome(written, Panicked)
        case Code(text) => Run(path, lines, gen, i + 1, None, "", err, written + [Output(startline.value, text)])
  }

  /** Read line by line, the loop produces what the scan by invocations describes. */
  lemma RunIsScan(path: string, lines: seq<string>, gen: string -> Generated)
    ensures Run(path, lines, gen, 0, None, "", "", []) == ScanFrom(path, lines, 0, "", gen)
  {
    OutsideRun(path, lines, gen, 0, "", []);
    assert [] + ScanFrom(path, lines, 0, "", gen).written == ScanFrom(path, lines, 0, "", gen).written;
  }

  /** Outside an invocation, the loop adds what `ScanFrom` describes to the files written. */
  lemma {:induction false} OutsideRun(path: string, lines: seq<string>, gen: string -> Generated, i: nat,
                                      errstr: string, written: seq<Output>)
    requires i <= |lines|
    ensures Run(path, lines, gen, i, None, "", errstr, written) == Append(written, ScanFrom(path, lines, i, errstr, gen))
    decreases |lines| - i, 2
  {
    if i == |lines| {
      AppendNothing(written, Done);
    } else {
      OutsideLine(path, lines, i, errstr, gen);
      if Text.Contains(lines[i], Marker) {
        assert lines[i + 1..i + 1] == [];
        InsideRun(path, lines, gen, i, i + 1, "", errstr, written);
      } else {
        OutsideRun(path, lines, gen, i + 1, errstr, written);
      }
    }
  }

  /** Inside the invocation on line index `m`, the loop adds what `BlockAt` describes. */
  lemma {:induction false} InsideRun(path: string, lines: seq<string>, gen: string -> Generated, m: nat, j: nat,
                                     s: string, errstr: string, written: seq<Output>)
    requires m < j <= |lines| && Collected(lines, Some(m + 1), s, j)
    ensures Run(path, lines, gen, j, Some(m + 1), s, errstr, written) == Append(written, BlockAt(path, lines, m, errstr, gen))
    decreases |lines| - j, 1
  {
    if j == |lines| {
      Unterminated(path, lines, m, errstr, gen);
      AppendNothing(written, Failed(errstr + UnterminatedSuffix));
    } else if !Text.Contains(lines[j], Terminator) {
      InsideLine(lines, m, s, j);
      InsideRun(path, lines, gen, m, j + 1, s + lines[j] + "\n", errstr, written);
    } else {
      ClosedRun(path, lines, gen, m, j, s, errstr, written);
    }
  }

  /** On the terminator line, the loop adds what `Closed` describes. */
  lemma {:induction false} ClosedRun(path: string, lines: seq<string>, gen: string -> Generated, m: nat, j: nat,
                                     s: string, errstr: string, written: seq<Output>)
    requires m < j < |lines| && Collected(lines, Some(m + 1), s, j) && Text.Contains(lines[j], Terminator)
    ensures Run(path, lines, gen, j, Some(m + 1), s, errstr, written) == Append(written, BlockAt(path, lines, m, errstr, gen))
    decreases |lines| - j, 0
  {
    ClosingLine(path, lines, m, j, errstr, gen);
    var g := gen(s);
    ClosedResult(path, lines, m, j, gen, g);
    var err := Location(path, m + 1);
    match g
    case Rejected(e) =>
      AppendNothing(written, Failed(err + " " + e));
    case NoFields =>
      AppendNothing(written, Panicked);
    case Code(text) =>
      var out := Output(m + 1, text);
      OutsideRun(path, lines, gen, j + 1, err, written + [out]);
      AppendPrepend(written, out, ScanFrom(path, lines, j + 1, err, gen));
  }

  /**
   * The loop's view of an open invocation: `startline` is the marker line + 1, no line since
   * then holds the terminator, and `s` holds those lines.
   */
  ghost predicate Collected(lines: seq<string>, startline: Option<nat>, s: string, i: nat) {
    match startline
    case None => s == ""
    case Some(v) =>
      && 1 <= v <= i <= |lines|
      && FindLine(lines, v, Terminator) == FindLine(lines, i, Terminator)
      && s == Joined(lines[v..i])
  }

  /** A line inside an invocation without the terminator is collected. */
  lemma InsideLine(lines: seq<string>, m: nat, s: string, i: nat)
    requires m < i < |lines| && !Text.Contains(lines[i], Terminator)
    requires Collected(lines, Some(m + 1), s, i)
    ensures Collected(lines, Some(m + 1), s + lines[i] + "\n", i + 1)
  {
    assert lines[m + 1..i + 1] == lines[m + 1..i] + [lines[i]];
    JoinedStep(lines[m + 1..i], lines[i]);
  }

  /**
   * The work done on a closed invocation's text `s`, `from_toml(&s)` and then
   * `write_struct()`, written step by step. It is the imperative form of `Handle`, which
   * `HandleCases` describes; the scan itself is stated with `Handler(parse)`, that is `Handle`.
   */
  method Invocation(parse: string -> Document, s: string) returns (g: Generated)
    ensures g == Handle(parse, s)
  {
    var cfg := FromToml(parse(s));
    if cfg.Err? {
      return Rejected(cfg.error);
    }
    if |cfg.value.fields| == 0 {
      return NoFields;
    }
    g := Code(Emit.WriteStruct(cfg.value));
  }

  /** Outside an invocation, a line without the marker is skipped and a marker line opens one. */
  lemma OutsideLine(path: string, lines: seq<string>, i: nat, errstr: string, gen: string -> Generated)
    requires i < |lines|
    ensures !Text.Contains(lines[i], Marker) ==> ScanFrom(path, lines, i, errstr, gen) == ScanFrom(path, lines, i + 1, errstr, gen)
    ensures Text.Contains(lines[i], Marker) ==> ScanFrom(path, lines, i, errstr, gen) == BlockAt(path, lines, i, errstr, gen)
  {
  }

  /** The first terminator line after the marker closes the invocation. */
  lemma ClosingLine(path: string, lines: seq<string>, m: nat, t: nat, errstr: string, gen: string -> Generated)
    requires m < t < |lines|
    requires Collected(lines, Some(m + 1), Joined(lines[m + 1..t]), t)
    requires Text.Contains(lines[t], Terminator)
    ensures BlockAt(path, lines, m, errstr, gen) == Closed(path, lines, m, t, gen)
  {
  }

  /** How a closed invocation ends, given what its text yields. */
  lemma ClosedResult(path: string, lines: seq<string>, m: nat, t: nat, gen: string -> Generated, g: Generated)
    requires m < t < |lines| && g == gen(Joined(lines[m + 1..t]))
    ensures g.Rejected? ==> Closed(path, lines, m, t, gen) == Outcome([], Failed(Location(path, m + 1) + " " + g.reason))
    ensures g.NoFields? ==> Closed(path, lines, m, t, gen) == Outcome([], Panicked)
    ensures g.Code? ==> Closed(path, lines, m, t, gen)
                        == Prepend(Output(m + 1, g.text), ScanFrom(path, lines, t + 1, Location(path, m + 1), gen))
  {
  }

  /** An invocation without a terminator line fails with the message last formatted. */
  lemma Unterminated(path: string, lines: seq<string>, m: nat, errstr: string, gen: string -> Generated)
    requires m < |lines| && FindLine(lines, m + 1, Terminator) == |lines|
    ensures BlockAt(path, lines, m, errstr, gen) == Outcome([], Failed(errstr + UnterminatedSuffix))
  {
  }

  // ---------------------------------------------------------------------------
  // What the scan promises.

  /**
   * Output files, each named by a line number: every one is after line `lo`, within the
   * file, on a line holding the marker, and the numbers strictly increase.
   */
  ghost predicate MarkerOutputs(lines: seq<string>, ws: seq<Output>, lo: nat) {
    && (forall k :: 0 <= k < |ws| ==>
          lo < ws[k].line <= |lines| && Text.Contains(lines[ws[k].line - 1], Marker))
    && (forall k, l :: 0 <= k < l < |ws| ==> ws[k].line < ws[l].line)
  }

  /** Each file written is named after the line of an invocation's marker, in file order. */
  lemma {:induction false} ScanOutputs(path: string, lines: seq<string>, from: nat, errstr: string,
                                       gen: string -> Generated)
    requires from <= |lines|
    ensures MarkerOutputs(lines, ScanFrom(path, lines, from, errstr, gen).written, from)
    decreases |lines| - from, 2
  {
    var m := FindLine(lines, from, Marker);
    if m < |lines| {
      BlockOutputs(path, lines, m, errstr, gen);
    }
  }

  lemma {:induction false} BlockOutputs(path: string, lines: seq<string>, m: nat, errstr: string,
                                        gen: string -> Generated)
    requires m < |lines| && Text.Contains(lines[m], Marker)
    ensures MarkerOutputs(lines, BlockAt(path, lines, m, errstr, gen).written, m)
    decreases |lines| - m, 1
  {
    var t := FindLine(lines, m + 1, Terminator);
    if t < |lines| {
      var g := gen(Joined(lines[m + 1..t]));
      ClosedResult(path, lines, m, t, gen, g);
      if g.Code? {
        var rest := ScanFrom(path, lines, t + 1, Location(path, m + 1), gen);
        ScanOutputs(path, lines, t + 1, Location(path, m + 1), gen);
        PrependOutput(lines, Output(m + 1, g.text), rest.written, m, t + 1);
      }
    }
  }

  /** An output on the marker line `m + 1`, ahead of outputs after line `t >= m + 1`. */
  lemma PrependOutput(lines: seq<string>, o: Output, ws: seq<Output>, m: nat, t: nat)
    requires o.line == m + 1 <= t && m < |lines| && Text.Contains(lines[m], Marker)
    requires MarkerOutputs(lines, ws, t)
    ensures MarkerOutputs(lines, [o] + ws, m)
  {
    assert forall k :: 0 < k < |[o] + ws| ==> ([o] + ws)[k] == ws[k - 1];
  }

  /**
   * Distinct output files get distinct names: the decimal names `format!("{}", startline)`
   * of any two files written by one scan differ.
   */
  lemma OutputNamesDistinct(path: string, lines: seq<string>, gen: string -> Generated, k: nat, l: nat)
    requires var ws := ScanFrom(path, lines, 0, "", gen).written; k < l < |ws|
    ensures var ws := ScanFrom(path, lines, 0, "", gen).written;
            Text.NatToString(ws[k].line) != Text.NatToString(ws[l].line)
  {
    var ws := ScanFrom(path, lines, 0, "", gen).written;
    ScanOutputs(path, lines, 0, "", gen);
    Text.NatToStringRoundTrip(ws[k].line);
    Text.NatToStringRoundTrip(ws[l].line);
  }

  /** A rejected declaration stops the scan with the invocation's location and the reason. */
  lemma RejectionNamesInvocation(path: string, lines: seq<string>, m: nat, t: nat,
                                 gen: string -> Generated, errstr: string)
    requires m < t < |lines| && Text.Contains(lines[t], Terminator)
    requires forall j :: m < j < t ==> !Text.Contains(lines[j], Terminator)
    requires gen(Joined(lines[m + 1..t])).Rejected?
    ensures BlockAt(path, lines, m, errstr, gen)
            == Outcome([], Failed(LocationPrefix + path + ":" + Text.NatToString(m + 1) + " "
                                  + gen(Joined(lines[m + 1..t])).reason))
  {
    FindLineSkips(lines, m + 1, t, Terminator);
    ClosedResult(path, lines, m, t, gen, gen(Joined(lines[m + 1..t])));
  }

  /**
   * What the loop turns a declaration into: the declaration's rejection exactly when
   * `from_toml` rejects it; the panic exactly for an accepted declaration without fields;
   * otherwise the text of `write_struct`.
   */
  lemma HandleCases(parse: string -> Document, body: string)
    ensures Handle(parse, body).Rejected? <==> !Acceptable(parse(body))
    ensures Handle(parse, body).Rejected? ==> Configure(parse(body)) == Err(Handle(parse, body).reason)
    ensures Handle(parse, body).NoFields? <==> Acceptable(parse(body)) && Configure(parse(body)).value.fields == []
    ensures Handle(parse, body).Code? ==>
              Emit.Emittable(Configure(parse(body)).value)
              && Handle(parse, body).text == Emit.WriteStruct(Configure(parse(body)).value)
  {
    AcceptedIff(parse(body));
  }

  /** A file in which no line holds the marker produces no output and no error. */
  lemma NoMarkerNoOutput(path: string, lines: seq<string>, gen: string -> Generated)
    requires forall j :: 0 <= j < |lines| ==> !Text.Contains(lines[j], Marker)
    ensures ScanFrom(path, lines, 0, "", gen) == Outcome([], Done)
  {
    FindLineSkips(lines, 0, |lines|, Marker);
  }

  /**
   * The marker is the literal `ref_struct!`: a line without an underscore, such as one
   * invoking the exported `refstruct!` macro, never holds it, whatever else the file holds.
   */
  lemma ExportedNameIsNotScanned(line: string)
    requires '_' !in line
    ensures !Text.Contains(line, Marker)
  {
    assert Marker[3] == '_';
    Text.NoCharNoContains(line, Marker, '_');
  }

  /** So a file without any underscore produces no output and no error. */
  lemma NoUnderscoreNoOutput(path: string, lines: seq<string>, gen: string -> Generated)
    requires forall j :: 0 <= j < |lines| ==> '_' !in lines[j]
    ensures forall j :: 0 <= j < |lines| ==> !Text.Contains(lines[j], Marker)
    ensures ScanFrom(path, lines, 0, "", gen) == Outcome([], Done)
  {
    forall j | 0 <= j < |lines|
      ensures !Text.Contains(lines[j], Marker)
    {
      ExportedNameIsNotScanned(lines[j]);
    }
    NoMarkerNoOutput(path, lines, gen);
  }

  /**
   * When the first invocation of a file has no terminator line after its marker line, the
   * scan fails with the message formatted last, which is still empty: the error carries no
   * location at all.
   */
  lemma FirstInvocationUnterminated(path: string, lines: seq<string>, gen: string -> Generated)
    requires FindLine(lines, 0, Marker) < |lines|
    requires FindLine(lines, FindLine(lines, 0, Marker) + 1, Terminator) == |lines|
    ensures ScanFrom(path, lines, 0, "", gen) == Outcome([], Failed(UnterminatedSuffix))
  {
    assert "" + UnterminatedSuffix == UnterminatedSuffix;
  }

  /**
   * Example: a terminator on the marker's own line is not seen, so the one-line file
   * `ref_struct!(r#""#)` is reported as unterminated, without a location.
   */
  lemma OneLineInvocationIsUnterminated(path: string, gen: string -> Generated)
    ensures ScanFrom(path, ["ref_struct!(r#\"\"#)"], 0, "", gen) == Outcome([], Failed(" is not a raw string literal"))
  {
    var lines := ["ref_struct!(r#\"\"#)"];
    assert lines[0][..|Marker|] == Marker;
    assert FindLine(lines, 0, Marker) == 0;
    assert FindLine(lines, 1, Terminator) == 1;
    FirstInvocationUnterminated(path, lines, gen);
  }

  /**
   * When an invocation is generated and the next one is unterminated, the error names the
   * location of the earlier invocation: the message is the one formatted when it closed.
   */
  lemma UnterminatedNamesPreviousInvocation(path: string, lines: seq<string>, m: nat, t: nat,
                                            gen: string -> Generated)
    requires m < t < |lines| && FindLine(lines, 0, Marker) == m
    requires FindLine(lines, m + 1, Terminator) == t
    requires gen(Joined(lines[m + 1..t])).Code?
    requires FindLine(lines, t + 1, Marker) < |lines|
    requires FindLine(lines, FindLine(lines, t + 1, Marker) + 1, Terminator) == |lines|
    ensures ScanFrom(path, lines, 0, "", gen)
            == Outcome([Output(m + 1, gen(Joined(lines[m + 1..t])).text)],
                       Failed(Location(path, m + 1) + UnterminatedSuffix))
  {
    var g := gen(Joined(lines[m + 1..t]));
    ClosedResult(path, lines, m, t, gen, g);
    assert [Output(m + 1, g.text)] + [] == [Output(m + 1, g.text)];
  }

  /** Lines without `pat` are skipped over by the search. */
  lemma {:induction false} FindLineSkips(lines: seq<string>, a: nat, b: nat, pat: string)
    requires a <= b <= |lines|
    requires forall j :: a <= j < b ==> !Text.Contains(lines[j], pat)
    ensures FindLine(lines, a, pat) == FindLine(lines, b, pat)
    decreases b - a
  {
    if a < b {
      FindLineSkips(lines, a + 1, b, pat);
    }
  }
}
