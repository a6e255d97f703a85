/**
  The history of one job definition: uploads read the current version, store the artifact and write the
  document back, while patches, deletes and ticks come in between.
 */
module DefinitionHistory {
  import opened Options
  import opened ExecutionMetadata

  type Req = nat

  /** A completed upload: the version it was given and the digest of its code. */
  datatype Upload = Upload(version: int, sha256: string)

  /** An upload between its read and its write; `found` says whether it met a document. */
  datatype Ticket = Ticket(version: int, found: bool, sha256: string, info: Info)

  datatype Sys = Sys(doc: Option<Definition>, uploads: seq<Upload>, pending: map<Req, Ticket>, snapshots: set<Snapshot>)

  datatype Label =
    | UploadRead(req: Req, sha256: string, info: Info)
    | UploadWrite(req: Req, uri: Js, generation: Js)
    | UploadFails(req: Req)
    | PatchDoc(enabled: Option<bool>, timeoutSeconds: Option<int>)
    | DeleteDoc
    | TickSnapshot

  const INITIAL := Sys(None, [], map[], {})

  function VersionOf(d: Definition): int {
    if d.info.version.Num? then d.info.version.n else 0
  }

  /** `existing ? existing.version + 1 : 1`. */
  function NextVersion(doc: Option<Definition>): int {
    if doc.Some? then VersionOf(doc.value) + 1 else 1
  }

  ghost predicate Enabled(s: Sys, l: Label) {
    match l
    case UploadRead(req, _, _) => req !in s.pending
    case UploadWrite(req, _, _) => req in s.pending
    case UploadFails(req) => req in s.pending
    case _ => true
  }

  /** `es.index` overwrites, `es.create` refuses an existing document. */
  predicate Lands(s: Sys, t: Ticket) { t.found || s.doc.None? }

  function Apply(s: Sys, l: Label): Sys
    requires l.UploadWrite? ==> l.req in s.pending
  {
    match l
    case UploadRead(req, sha256, info) =>
      s.(pending := s.pending[req := Ticket(NextVersion(s.doc), s.doc.Some?, sha256, info)])
    case UploadWrite(req, uri, generation) =>
      var t := s.pending[req];
      var done := s.(pending := s.pending - {req});
      if Lands(s, t)
      then done.(doc := Some(Definition(t.info.(version := Num(t.version)), Bool(true), Str("ACTIVE"),
                                        Some(Artifact(uri, Str(t.sha256), generation)))),
                 uploads := s.uploads + [Upload(t.version, t.sha256)])
      else done
    case UploadFails(req) => s.(pending := s.pending - {req})
    case PatchDoc(enabled, timeout) =>
      if s.doc.None? then s
      else
        var d := s.doc.value;
        s.(doc := Some(d.(enabled := if enabled.Some? then Bool(enabled.value) else d.enabled,
                          info := if timeout.Some? then d.info.(timeoutSeconds := Num(timeout.value)) else d.info)))
    case DeleteDoc =>
      if s.doc.None? then s else s.(doc := Some(s.doc.value.(state := Str("DELETED"), enabled := Bool(false))))
    case TickSnapshot => s.(snapshots := s.snapshots + {TakeSnapshot(s.doc)})
  }

  ghost predicate Step(s: Sys, l: Label, s': Sys) { Enabled(s, l) && s' == Apply(s, l) }

  ghost predicate History(states: seq<Sys>, labels: seq<Label>) {
    && |states| == |labels| + 1 && states[0] == INITIAL
    && forall i {:trigger labels[i]} | 0 <= i < |labels| :: Step(states[i], labels[i], states[i + 1])
  }

  // ---------------------------------------------------------------- versions

  ghost predicate VersionsDiffer(uploads: seq<Upload>) {
    forall i, j | 0 <= i < j < |uploads| :: uploads[i].version != uploads[j].version
  }

  /** A write that lands finds the document its upload read, as a conditional write would require. */
  ghost predicate Timely(s: Sys, l: Label) {
    l.UploadWrite? && l.req in s.pending && Lands(s, s.pending[l.req]) ==>
      s.pending[l.req].version == NextVersion(s.doc)
  }

  /** The document carries the number and the code of the latest upload. */
  ghost predicate Sound(s: Sys) {
    && (s.doc.None? <==> s.uploads == [])
    && (s.doc.Some? ==>
          var last := s.uploads[|s.uploads| - 1];
          && s.doc.value.info.version == Num(last.version)
          && s.doc.value.jobZip.Some? && s.doc.value.jobZip.value.sha256 == Str(last.sha256))
    && (forall q | q in s.pending :: s.pending[q].found ==> s.doc.Some?)
  }

  /** Uploads are numbered 1, 2, 3, ... and nobody is about to write a number beyond the next. */
  ghost predicate Numbered(s: Sys) {
    && (forall i | 0 <= i < |s.uploads| :: s.uploads[i].version == i + 1)
    && (forall q | q in s.pending :: 1 <= s.pending[q].version <= |s.uploads| + 1)
  }

  lemma {:induction false} Reachable(states: seq<Sys>, labels: seq<Label>, n: nat)
    requires History(states, labels) && n < |states|
    ensures Sound(states[n])
  {
    if n > 0 {
      Reachable(states, labels, n - 1);
      assert Step(states[n - 1], labels[n - 1], states[n]);
    }
  }

  lemma {:induction false} TimelyMeansNumbered(states: seq<Sys>, labels: seq<Label>, n: nat)
    requires History(states, labels) && n < |states|
    requires forall i {:trigger labels[i]} | 0 <= i < n :: Timely(states[i], labels[i])
    ensures Numbered(states[n])
  {
    if n > 0 {
      TimelyMeansNumbered(states, labels, n - 1);
      Reachable(states, labels, n - 1);
      assert Step(states[n - 1], labels[n - 1], states[n]);
    }
  }

  lemma {:induction false} UploadsGrow(states: seq<Sys>, labels: seq<Label>, i: nat, n: nat)
    requires History(states, labels) && i <= n < |states|
    ensures states[i].uploads <= states[n].uploads
  {
    if i < n {
      UploadsGrow(states, labels, i, n - 1);
      assert Step(states[n - 1], labels[n - 1], states[n]);
    }
  }

  /** A late write reuses the number of an upload it did not see. */
  lemma LateWriteRepeats(states: seq<Sys>, labels: seq<Label>, i: nat)
    requires History(states, labels) && i < |labels| && !Timely(states[i], labels[i])
    requires forall j {:trigger labels[j]} | 0 <= j < i :: Timely(states[j], labels[j])
    ensures !VersionsDiffer(states[i + 1].uploads)
  {
    Reachable(states, labels, i);
    TimelyMeansNumbered(states, labels, i);
    var s, s' := states[i], states[i + 1];
    assert Step(s, labels[i], s');
    var t := s.pending[labels[i].req];
    assert s'.uploads[t.version - 1].version == t.version && s'.uploads[|s.uploads|].version == t.version;
  }

  lemma {:induction false} FirstLate(states: seq<Sys>, labels: seq<Label>, n: nat) returns (i: nat)
    requires |states| == |labels| + 1 && n <= |labels|
    requires exists j: nat {:trigger labels[j]} :: j < n && !Timely(states[j], labels[j])
    ensures i < n && !Timely(states[i], labels[i])
    ensures forall j {:trigger labels[j]} | 0 <= j < i :: Timely(states[j], labels[j])
  {
    if exists j: nat {:trigger labels[j]} :: j < n - 1 && !Timely(states[j], labels[j]) {
      i := FirstLate(states, labels, n - 1);
    } else {
      i := n - 1;
    }
  }

  /** Version numbers never repeat exactly when no upload writes over a version it did not read. */
  lemma VersionsDifferIff(states: seq<Sys>, labels: seq<Label>, n: nat)
    requires History(states, labels) && n < |states|
    ensures VersionsDiffer(states[n].uploads)
            <==> (forall i {:trigger labels[i]} | 0 <= i < n :: Timely(states[i], labels[i]))
  {
    if forall i {:trigger labels[i]} | 0 <= i < n :: Timely(states[i], labels[i]) {
      TimelyMeansNumbered(states, labels, n);
    } else {
      var i := FirstLate(states, labels, n);
      LateWriteRepeats(states, labels, i);
      UploadsGrow(states, labels, i + 1, n);
    }
  }

  /** No two uploads are under way at the same time. */
  ghost predicate Alone(s: Sys) { forall p, q | p in s.pending && q in s.pending :: p == q }

  /** Uploads that never overlap always write in time, whatever patches, deletes and failed uploads come between. */
  lemma {:induction false} ApartMeansTimely(states: seq<Sys>, labels: seq<Label>, n: nat)
    requires History(states, labels) && n < |states| && forall m | 0 <= m <= n :: Alone(states[m])
    ensures forall q | q in states[n].pending :: states[n].pending[q].version == NextVersion(states[n].doc)
    ensures forall i {:trigger labels[i]} | 0 <= i < n :: Timely(states[i], labels[i])
  {
    if n > 0 {
      ApartMeansTimely(states, labels, n - 1);
      assert Step(states[n - 1], labels[n - 1], states[n]) && Alone(states[n - 1]);
    }
  }

  // ---------------------------------------------------------------- code

  /** What a snapshot or a document says about code is what some upload of that number put there. */
  ghost predicate Backed(uploads: seq<Upload>, info: Info, zip: Option<Artifact>) {
    exists u | u in uploads :: info.version == Num(u.version) && zip.Some? && zip.value.sha256 == Str(u.sha256)
  }

  lemma BackedLater(uploads: seq<Upload>, later: seq<Upload>, info: Info, zip: Option<Artifact>)
    requires uploads <= later && Backed(uploads, info, zip)
    ensures Backed(later, info, zip)
  {
    var u :| u in uploads && info.version == Num(u.version) && zip.Some? && zip.value.sha256 == Str(u.sha256);
    assert u in later;
  }

  lemma DocBacked(s: Sys)
    requires Sound(s) && s.doc.Some?
    ensures Backed(s.uploads, s.doc.value.info, s.doc.value.jobZip)
  {
    assert s.uploads[|s.uploads| - 1] in s.uploads;
  }

  lemma {:induction false} SnapshotsBacked(states: seq<Sys>, labels: seq<Label>, n: nat, snap: Snapshot)
    requires History(states, labels) && n < |states| && snap in states[n].snapshots && snap.definition.Some?
    ensures Backed(states[n].uploads, snap.definition.value, snap.artifact)
  {
    var p := n - 1;
    assert Step(states[p], labels[p], states[n]);
    UploadsGrow(states, labels, p, n);
    if snap in states[p].snapshots {
      SnapshotsBacked(states, labels, p, snap);
      BackedLater(states[p].uploads, states[n].uploads, snap.definition.value, snap.artifact);
    } else {
      Reachable(states, labels, p);
      DocBacked(states[p]);
    }
  }

  /**
    A version pin is a code pin: if uploads never write late, then whenever metadata is built for a run pinned
    to `v`, from the live document or from a snapshot taken at any earlier time, the artifact's digest is that
    of the upload numbered `v`, and there is such an upload.
   */
  lemma VersionPinIsCodePin(states: seq<Sys>, labels: seq<Label>, n: nat, run: RunRef, v: int)
    requires History(states, labels) && n < |states|
    requires forall i {:trigger labels[i]} | 0 <= i < n :: Timely(states[i], labels[i])
    requires run.definitionVersion == Num(v)
    requires run.executionMetadata.Some? ==> run.executionMetadata.value in states[n].snapshots
    ensures var built := Build(run, states[n].doc);
            built.Ok? ==>
              && 1 <= v <= |states[n].uploads| && states[n].uploads[v - 1].version == v
              && built.value.artifact.sha256 == Str(states[n].uploads[v - 1].sha256)
  {
    var s := states[n];
    var built := Build(run, s.doc);
    if built.Ok? {
      TimelyMeansNumbered(states, labels, n);
      Reachable(states, labels, n);
      if run.executionMetadata.Some? {
        SnapshotsBacked(states, labels, n, run.executionMetadata.value);
      } else {
        DocBacked(s);
      }
    }
  }

  /** Two overlapping uploads of different code get the same number, so a pin no longer names the code. */
  lemma OverlappingUploadsRepeat(info: Info) returns (states: seq<Sys>, labels: seq<Label>)
    ensures History(states, labels)
    ensures var last := states[|states| - 1];
            |last.uploads| == 3 && last.uploads[1] == Upload(2, "b") && last.uploads[2] == Upload(2, "c")
  {
    labels := [UploadRead(0, "a", info), UploadWrite(0, Str("u"), Str("1")), UploadRead(1, "b", info),
               UploadRead(2, "c", info), UploadWrite(1, Str("u"), Str("2")), UploadWrite(2, Str("u"), Str("3"))];
    var s1 := Apply(INITIAL, labels[0]);
    var s2 := Apply(s1, labels[1]);
    var s3 := Apply(s2, labels[2]);
    var s4 := Apply(s3, labels[3]);
    var s5 := Apply(s4, labels[4]);
    states := [INITIAL, s1, s2, s3, s4, s5, Apply(s5, labels[5])];
  }

  // ---------------------------------------------------------------- what each step leaves to be run

  /** What an upload that lands leaves is what a live run gets: its own code, its own metadata, its own number. */
  lemma UploadIsServed(s: Sys, l: Label, s': Sys, run: RunRef)
    requires Step(s, l, s') && l.UploadWrite? && Lands(s, s.pending[l.req])
    requires run.executionMetadata.None? && run.definitionId !in FALSY
    requires run.definitionVersion in {Undefined, Num(s.pending[l.req].version)}
    requires l.uri !in FALSY && l.generation !in FALSY && s.pending[l.req].sha256 != ""
    ensures var t, built := s.pending[l.req], Build(run, s'.doc);
            && built.Ok? && built.value.definition == t.info.(version := Num(t.version))
            && built.value.artifact == Artifact(l.uri, Str(t.sha256), Str(Text(l.generation)))
  {
    LiveOutcome(run, s'.doc);
  }

  /** An upload that found no document never overwrites one: of two first uploads, only the first to write lands. */
  lemma FirstUploadNeverOverwrites(s: Sys, l: Label, s': Sys)
    requires Step(s, l, s') && l.UploadWrite? && !s.pending[l.req].found && s.doc.Some?
    ensures s'.doc == s.doc && s'.uploads == s.uploads && l.req !in s'.pending
  {
  }

  /** A deleted definition is marked and disabled, keeps its number and its code, and is refused live. */
  lemma DeletedIsRefused(s: Sys, s': Sys, run: RunRef)
    requires Step(s, DeleteDoc, s') && s.doc.Some? && run.executionMetadata.None? && run.definitionId !in FALSY
    ensures Build(run, s'.doc) == Err(DefinitionNotActive)
    ensures s'.doc == Some(s.doc.value.(state := Str("DELETED"), enabled := Bool(false))) && s'.uploads == s.uploads
  {
    LiveOutcome(run, s'.doc);
  }

  /** A patch changes whether the definition is enabled and how long it may run, and nothing else. */
  lemma PatchLeavesCode(s: Sys, l: Label, s': Sys)
    requires Step(s, l, s') && l.PatchDoc? && s.doc.Some?
    ensures s'.doc.Some? && s'.uploads == s.uploads && s'.pending == s.pending
    ensures var a, b := s.doc.value, s'.doc.value;
            && b.state == a.state && b.jobZip == a.jobZip && b.info == a.info.(timeoutSeconds := b.info.timeoutSeconds)
            && b.enabled == (if l.enabled.Some? then Bool(l.enabled.value) else a.enabled)
            && b.info.timeoutSeconds == (if l.timeoutSeconds.Some? then Num(l.timeoutSeconds.value)
                                         else a.info.timeoutSeconds)
  {
  }
}
