/** The definition a run executes: from the snapshot its tick stored, or from a live read of the document. */
module ExecutionMetadata {
  import opened Options

  /** A field of a stored document; an absent field reads as `undefined`. Numbers are whole. */
  datatype Js = Undefined | Null | Bool(b: bool) | Num(n: int) | Str(s: string)

  predicate Truthy(v: Js) {
    match v
    case Undefined => false
    case Null => false
    case Bool(b) => b
    case Num(n) => n != 0
    case Str(s) => s != ""
  }

  function Digits(n: nat): (text: string)
    ensures text != ""
  {
    var last := ["0", "1", "2", "3", "4", "5", "6", "7", "8", "9"][n % 10];
    if n < 10 then last else Digits(n / 10) + last
  }

  /** `String(v)`. */
  function Text(v: Js): string {
    match v
    case Undefined => "undefined"
    case Null => "null"
    case Bool(b) => if b then "true" else "false"
    case Num(n) => if n < 0 then "-" + Digits(-n) else Digits(n)
    case Str(s) => s
  }

  datatype Info = Info(definitionId: Js, version: Js, runtime: Js, runtimeVersion: Js, wrapperVersion: Js,
                       entrypoint: Js, timeoutSeconds: Js)

  datatype Artifact = Artifact(uri: Js, sha256: Js, generation: Js)

  datatype Definition = Definition(info: Info, enabled: Js, state: Js, jobZip: Option<Artifact>)

  datatype Snapshot = Snapshot(definition: Option<Info>, definitionEnabled: bool, definitionState: Js,
                               artifact: Option<Artifact>)

  datatype RunRef = RunRef(definitionId: Js, definitionVersion: Js, executionMetadata: Option<Snapshot>)

  datatype Metadata = Metadata(definition: Info, artifact: Artifact)

  datatype Code = RunDefinitionMissing | DefinitionNotFound | DefinitionNotActive | VersionMismatch | ArtifactMissing

  /** `buildExecutionMetadataSnapshot`; `state ?? null`, and a generation becomes text unless it is null or absent. */
  function TakeSnapshot(d: Option<Definition>): Snapshot {
    if d.None? then Snapshot(None, false, Null, None)
    else
      var state := if d.value.state.Undefined? then Null else d.value.state;
      Snapshot(Some(d.value.info), d.value.enabled == Bool(true), state,
               if d.value.jobZip.None? then None
               else
                 var zip := d.value.jobZip.value;
                 Some(zip.(generation := if zip.generation.Undefined? || zip.generation.Null? then Null
                                         else Str(Text(zip.generation)))))
  }

  predicate Complete(zip: Option<Artifact>) {
    zip.Some? && Truthy(zip.value.uri) && Truthy(zip.value.sha256) && Truthy(zip.value.generation)
  }

  /** The checks after the fetch, which both branches make in the same order. */
  function Check(run: RunRef, info: Option<Info>, active: bool, zip: Option<Artifact>): Result<Metadata, Code> {
    if !Truthy(run.definitionId) then Err(RunDefinitionMissing)
    else if info.None? then Err(DefinitionNotFound)
    else if !active then Err(DefinitionNotActive)
    else if run.definitionVersion != Undefined && info.value.version != run.definitionVersion then Err(VersionMismatch)
    else if !Complete(zip) then Err(ArtifactMissing)
    else Ok(Metadata(info.value, zip.value.(generation := Str(Text(zip.value.generation)))))
  }

  function FromSnapshot(run: RunRef, s: Snapshot): Result<Metadata, Code> {
    Check(run, s.definition, s.definitionEnabled && s.definitionState == Str("ACTIVE"), s.artifact)
  }

  function FromLive(run: RunRef, d: Option<Definition>): Result<Metadata, Code> {
    if d.None? then Check(run, None, false, None)
    else Check(run, Some(d.value.info), d.value.enabled == Bool(true) && d.value.state == Str("ACTIVE"), d.value.jobZip)
  }

  /** `buildExecutionMetadata`: the snapshot if the run has one, else the live document. */
  function Build(run: RunRef, live: Option<Definition>): Result<Metadata, Code> {
    if run.executionMetadata.Some? then FromSnapshot(run, run.executionMetadata.value) else FromLive(run, live)
  }

  // ---------------------------------------------------------------- what is built, read off the document

  /** The values JavaScript takes for false. */
  const FALSY: set<Js> := {Undefined, Null, Bool(false), Num(0), Str("")}

  lemma TruthyIff(v: Js)
    ensures Truthy(v) <==> v !in FALSY
  {
  }

  /** The number a decimal text stands for. */
  function Value(text: string): int {
    if text == "" then 0 else Value(text[..|text| - 1]) * 10 + (text[|text| - 1] as int - '0' as int)
  }

  /** Decimal text reads back as its number, in digits only and without a leading zero. */
  lemma {:induction false} DigitsReadBack(n: nat)
    ensures Value(Digits(n)) == n
    ensures forall c | c in Digits(n) :: '0' <= c <= '9'
    ensures n > 0 ==> Digits(n)[0] != '0'
  {
    var last := ["0", "1", "2", "3", "4", "5", "6", "7", "8", "9"][n % 10];
    assert last[0] as int - '0' as int == n % 10;
    if n < 10 {
      assert Digits(n) == last && last[..0] == "";
      assert Value(last) == Value(last[..0]) * 10 + n % 10;
    } else {
      DigitsReadBack(n / 10);
      assert Digits(n)[..|Digits(n)| - 1] == Digits(n / 10);
    }
  }

  /** The run names a definition, the document is there and active, and has the version the run is pinned to, if any. */
  ghost predicate Eligible(run: RunRef, d: Option<Definition>) {
    && run.definitionId !in FALSY && d.Some?
    && d.value.enabled == Bool(true) && d.value.state == Str("ACTIVE")
    && (run.definitionVersion == Undefined || d.value.info.version == run.definitionVersion)
  }

  /**
    What a live read comes to, for every run and document: each error code exactly when its own condition is the first
    to fail, and otherwise the fields of that document, with the generation as text.
   */
  lemma LiveOutcome(run: RunRef, d: Option<Definition>)
    requires run.executionMetadata.None?
    ensures Build(run, d) == Err(RunDefinitionMissing) <==> run.definitionId in FALSY
    ensures Build(run, d) == Err(DefinitionNotFound) <==> run.definitionId !in FALSY && d.None?
    ensures Build(run, d) == Err(DefinitionNotActive) <==>
              && run.definitionId !in FALSY && d.Some?
              && (d.value.enabled != Bool(true) || d.value.state != Str("ACTIVE"))
    ensures Build(run, d) == Err(VersionMismatch) <==>
              && run.definitionId !in FALSY && d.Some?
              && d.value.enabled == Bool(true) && d.value.state == Str("ACTIVE")
              && run.definitionVersion != Undefined && d.value.info.version != run.definitionVersion
    ensures Build(run, d) == Err(ArtifactMissing) <==>
              && Eligible(run, d)
              && (d.value.jobZip.None? || d.value.jobZip.value.uri in FALSY || d.value.jobZip.value.sha256 in FALSY
                  || d.value.jobZip.value.generation in FALSY)
    ensures Build(run, d).Ok? <==>
              && Eligible(run, d) && d.value.jobZip.Some? && d.value.jobZip.value.uri !in FALSY
              && d.value.jobZip.value.sha256 !in FALSY && d.value.jobZip.value.generation !in FALSY
    ensures Build(run, d).Ok? ==> BuiltFrom(Build(run, d).value, d.value)
  {
    TruthyIff(run.definitionId);
    if d.Some? && d.value.jobZip.Some? {
      TruthyIff(d.value.jobZip.value.uri);
      TruthyIff(d.value.jobZip.value.sha256);
      TruthyIff(d.value.jobZip.value.generation);
    }
  }

  /** Every field is the document's, and the generation is its text. */
  ghost predicate BuiltFrom(m: Metadata, d: Definition) {
    && m.definition.definitionId == d.info.definitionId && m.definition.version == d.info.version
    && m.definition.runtime == d.info.runtime && m.definition.runtimeVersion == d.info.runtimeVersion
    && m.definition.wrapperVersion == d.info.wrapperVersion && m.definition.entrypoint == d.info.entrypoint
    && m.definition.timeoutSeconds == d.info.timeoutSeconds
    && d.jobZip.Some? && m.artifact.uri == d.jobZip.value.uri && m.artifact.sha256 == d.jobZip.value.sha256
    && m.artifact.generation == Str(Text(d.jobZip.value.generation))
  }

  /** The same from a snapshot, about the document it was taken of; only a generation of 0 or false passes here. */
  lemma SnapshotOutcome(run: RunRef, d: Option<Definition>, live: Option<Definition>)
    requires run.executionMetadata == Some(TakeSnapshot(d))
    ensures Build(run, live) == Err(RunDefinitionMissing) <==> run.definitionId in FALSY
    ensures Build(run, live) == Err(DefinitionNotFound) <==> run.definitionId !in FALSY && d.None?
    ensures Build(run, live) == Err(DefinitionNotActive) <==>
              && run.definitionId !in FALSY && d.Some?
              && (d.value.enabled != Bool(true) || d.value.state != Str("ACTIVE"))
    ensures Build(run, live) == Err(VersionMismatch) <==>
              && run.definitionId !in FALSY && d.Some?
              && d.value.enabled == Bool(true) && d.value.state == Str("ACTIVE")
              && run.definitionVersion != Undefined && d.value.info.version != run.definitionVersion
    ensures Build(run, live) == Err(ArtifactMissing) <==>
              && Eligible(run, d)
              && (d.value.jobZip.None? || d.value.jobZip.value.uri in FALSY || d.value.jobZip.value.sha256 in FALSY
                  || d.value.jobZip.value.generation in {Undefined, Null, Str("")})
    ensures Build(run, live).Ok? ==> Eligible(run, d) && BuiltFrom(Build(run, live).value, d.value)
  {
    TruthyIff(run.definitionId);
    if d.Some? && d.value.jobZip.Some? {
      TruthyIff(d.value.jobZip.value.uri);
      TruthyIff(d.value.jobZip.value.sha256);
      TextIsEmptyIff(d.value.jobZip.value.generation);
    }
  }

  lemma TextIsEmptyIff(v: Js)
    ensures Text(v) == "" <==> v == Str("")
    ensures Text(Str(Text(v))) == Text(v)
  {
  }

  // ---------------------------------------------------------------- snapshot against live lookup

  /** The one split: a falsy generation that is neither null nor absent nor empty turns into truthy text. */
  ghost predicate Splits(run: RunRef, d: Option<Definition>) {
    && Truthy(run.definitionId) && d.Some?
    && d.value.enabled == Bool(true) && d.value.state == Str("ACTIVE")
    && (run.definitionVersion == Undefined || d.value.info.version == run.definitionVersion)
    && d.value.jobZip.Some? && Truthy(d.value.jobZip.value.uri) && Truthy(d.value.jobZip.value.sha256)
    && d.value.jobZip.value.generation in {Num(0), Bool(false)}
  }

  /** Metadata from the tick's snapshot of a document equals metadata from a live read of it, but for the split. */
  lemma SnapshotRefinesLiveIff(run: RunRef, d: Option<Definition>)
    ensures FromSnapshot(run, TakeSnapshot(d)) == FromLive(run, d) <==> !Splits(run, d)
  {
    if d.Some? && d.value.jobZip.Some? {
      var g := d.value.jobZip.value.generation;
      assert g.Num? ==> Truthy(Str(Text(g)));
      assert g.Bool? ==> Text(g) != "";
    }
  }

  /** For the generations a document normally holds there is no difference at all. */
  lemma SnapshotRefinesLive(run: RunRef, d: Option<Definition>)
    requires d.Some? && d.value.jobZip.Some? ==>
               var g := d.value.jobZip.value.generation;
               g.Undefined? || g.Null? || g.Str? || (g.Num? && g.n != 0)
    ensures Build(run.(executionMetadata := Some(TakeSnapshot(d))), d) == Build(run.(executionMetadata := None), d)
  {
    SnapshotRefinesLiveIff(run.(executionMetadata := None), d);
  }

  /** Numeric zero: the snapshot lets the run through that a live read refuses. */
  lemma ZeroGenerationSplits() returns (run: RunRef, d: Definition)
    ensures FromLive(run, Some(d)) == Err(ArtifactMissing)
    ensures FromSnapshot(run, TakeSnapshot(Some(d))).Ok?
  {
    var info := Info(Str("d"), Num(1), Str("python"), Str("python312"), Str("1"), Str("job.py"), Num(300));
    run := RunRef(Str("d"), Num(1), None);
    d := Definition(info, Bool(true), Str("ACTIVE"), Some(Artifact(Str("gs://b/o"), Str("abc"), Num(0))));
    SnapshotRefinesLiveIff(run, Some(d));
    assert Text(Num(0)) != "";
  }
}
