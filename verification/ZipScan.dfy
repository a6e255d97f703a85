/**
  The two walks over the entries of a ZIP, for any entry policy: the upload's validating walk and the worker's
  extracting walk. Each loop is proved against a plain description of what it accepts.
 */
module ZipScan {
  import opened Options

  const MAX_ZIP_BYTES := 10 * 1024 * 1024
  const MAX_UNCOMPRESSED_BYTES := 50 * 1024 * 1024
  const MAX_FILE_COUNT := 200
  const MAX_MANIFEST_BYTES := 64 * 1024

  /** Compressed bytes, never looked into but by the reader. */
  type Content = string

  datatype Entry = Entry(fileName: string, size: nat, attributes: bv32, content: Content)

  /** The normalised name of an admitted entry. */
  type Policy = Entry -> Result<string, string>

  /** The extraction target of a name, below some root. */
  type Joiner = string -> Result<string, string>

  /** Reading and parsing one manifest entry, which may fail. */
  type Reader = Entry -> Option<Manifest>

  predicate IsDirectory(e: Entry) { e.fileName != "" && e.fileName[|e.fileName| - 1] == '/' }

  // ---------------------------------------------------------------- what a list of entries adds up to

  function Files(entries: seq<Entry>): nat {
    if entries == [] then 0
    else Files(entries[..|entries| - 1]) + if IsDirectory(entries[|entries| - 1]) then 0 else 1
  }

  function Bytes(entries: seq<Entry>): nat {
    if entries == [] then 0 else Bytes(entries[..|entries| - 1]) + entries[|entries| - 1].size
  }

  ghost predicate Fits(entries: seq<Entry>, policy: Policy, maxFiles: nat, maxBytes: nat) {
    && (forall i | 0 <= i < |entries| :: policy(entries[i]).Ok?)
    && Files(entries) <= maxFiles && Bytes(entries) <= maxBytes
  }

  /** The counters only grow, so a limit passed on the way is passed at the end. */
  lemma {:induction false} CountersGrow(entries: seq<Entry>, n: nat)
    requires n <= |entries|
    ensures Files(entries[..n]) <= Files(entries) && Bytes(entries[..n]) <= Bytes(entries)
  {
    if n == |entries| {
      assert entries[..n] == entries;
    } else {
      var init := entries[..|entries| - 1];
      CountersGrow(init, n);
      assert init[..n] == entries[..n];
    }
  }

  /** What one more entry adds to the counters. */
  lemma PrefixCounts(entries: seq<Entry>, n: nat)
    requires n < |entries|
    ensures Files(entries[..n + 1]) == Files(entries[..n]) + (if IsDirectory(entries[n]) then 0 else 1)
    ensures Bytes(entries[..n + 1]) == Bytes(entries[..n]) + entries[n].size
  {
    assert entries[..n + 1][..n] == entries[..n];
  }

  // ---------------------------------------------------------------- extracting

  datatype Extraction = Extraction(fileCount: nat, uncompressedBytes: nat, targets: seq<string>)

  /** The list fits, and every name joins. */
  ghost predicate Extractable(entries: seq<Entry>, policy: Policy, join: Joiner, maxFiles: nat, maxBytes: nat) {
    && Fits(entries, policy, maxFiles, maxBytes)
    && forall i | 0 <= i < |entries| :: join(policy(entries[i]).value).Ok?
  }

  /** What such a list grants each of its entries, so that the walk may stop at the first one without it. */
  lemma ExtractableEach(entries: seq<Entry>, n: nat, policy: Policy, join: Joiner, maxFiles: nat, maxBytes: nat)
    requires Extractable(entries, policy, join, maxFiles, maxBytes) && n < |entries|
    ensures policy(entries[n]).Ok? && join(policy(entries[n]).value).Ok?
    ensures Files(entries[..n + 1]) <= maxFiles && Bytes(entries[..n + 1]) <= maxBytes
  {
    CountersGrow(entries, n + 1);
  }

  /** `extractZipEntries` without the file system: it accepts exactly the lists that fit and whose names all join. */
  method Extract(entries: seq<Entry>, policy: Policy, join: Joiner, maxFiles: nat, maxBytes: nat)
    returns (reply: Result<Extraction, string>)
    ensures reply.Ok? <==> Extractable(entries, policy, join, maxFiles, maxBytes)
    ensures reply.Ok? ==>
              && reply.value.fileCount == Files(entries) && reply.value.uncompressedBytes == Bytes(entries)
              && |reply.value.targets| == |entries|
              && forall i | 0 <= i < |entries| :: join(policy(entries[i]).value) == Ok(reply.value.targets[i])
  {
    var fileCount, uncompressedBytes, targets := 0, 0, [];
    for n := 0 to |entries|
      invariant fileCount == Files(entries[..n]) <= maxFiles && uncompressedBytes == Bytes(entries[..n]) <= maxBytes
      invariant forall i | 0 <= i < n :: policy(entries[i]).Ok?
      invariant |targets| == n
      invariant forall i | 0 <= i < n :: join(policy(entries[i]).value) == Ok(targets[i])
    {
      PrefixCounts(entries, n);
      if Extractable(entries, policy, join, maxFiles, maxBytes) {
        ExtractableEach(entries, n, policy, join, maxFiles, maxBytes);
      }
      var name := policy(entries[n]);
      if name.Err? { return Err(name.error); }
      fileCount := fileCount + if IsDirectory(entries[n]) then 0 else 1;
      uncompressedBytes := uncompressedBytes + entries[n].size;
      if fileCount > maxFiles { return Err("too many files"); }
      if uncompressedBytes > maxBytes { return Err("uncompressed size exceeded"); }
      var target := join(name.value);
      if target.Err? { return Err(target.error); }
      targets := targets + [target.value];
    }
    assert entries[..|entries|] == entries;
    return Ok(Extraction(fileCount, uncompressedBytes, targets));
  }

  // ---------------------------------------------------------------- validating

  /** A parsed manifest.json; fields that are not strings never match. */
  datatype Manifest =
    | NotObject
    | Object(entrypoint: Option<string>, runtime: Option<string>, wrapperVersion: Option<string>)

  datatype Metadata = Metadata(entrypoint: string, runtime: Option<string>, wrapperVersion: Option<string>)

  datatype Validated = Validated(fileCount: nat, uncompressedBytes: nat, manifest: Manifest)

  predicate IsManifest(policy: Policy, e: Entry) {
    policy(e) == Ok("manifest.json") && (e.fileName == "" || e.fileName[|e.fileName| - 1] != '/')
  }

  /** `validateManifestContract`. */
  predicate Matches(m: Manifest, meta: Metadata) {
    && m.Object? && m.entrypoint == Some(meta.entrypoint)
    && (meta.runtime.Some? ==> m.runtime == meta.runtime)
    && (meta.wrapperVersion.Some? ==> m.wrapperVersion == meta.wrapperVersion)
  }

  /** Every manifest entry is small enough and parses. */
  ghost predicate Readable(entries: seq<Entry>, policy: Policy, read: Reader) {
    forall i | 0 <= i < |entries| && IsManifest(policy, entries[i]) ::
      entries[i].size <= 65_536 && read(entries[i]).Some?
  }

  /** If there are several manifests, the last one counts. */
  function LastManifest(entries: seq<Entry>, policy: Policy, read: Reader): Option<Manifest> {
    if entries == [] then None
    else if IsManifest(policy, entries[|entries| - 1]) && read(entries[|entries| - 1]).Some?
    then read(entries[|entries| - 1])
    else LastManifest(entries[..|entries| - 1], policy, read)
  }

  ghost predicate Has(entries: seq<Entry>, policy: Policy, name: string) {
    exists i | 0 <= i < |entries| :: policy(entries[i]) == Ok(name)
  }

  /** At most 10 MiB, 200 files and 50 MiB unpacked, readable manifests, and the last of them fits the metadata. */
  ghost predicate Validates(zipBytes: nat, entries: seq<Entry>, policy: Policy, meta: Metadata, read: Reader) {
    && 0 < zipBytes <= 10_485_760
    && Fits(entries, policy, 200, 52_428_800)
    && Readable(entries, policy, read)
    && Has(entries, policy, "manifest.json") && Has(entries, policy, meta.entrypoint)
    && LastManifest(entries, policy, read).Some?
    && var m := LastManifest(entries, policy, read).value;
       && m.Object? && m.entrypoint == Some(meta.entrypoint)
       && (meta.runtime.Some? ==> m.runtime == meta.runtime)
       && (meta.wrapperVersion.Some? ==> m.wrapperVersion == meta.wrapperVersion)
  }

  /** What one more entry adds to what the walk has found. */
  lemma PrefixGrows(entries: seq<Entry>, n: nat, policy: Policy, read: Reader, name: string)
    requires n < |entries|
    ensures var e, before, after := entries[n], entries[..n], entries[..n + 1];
            && (Has(after, policy, name) <==> Has(before, policy, name) || policy(e) == Ok(name))
            && (Readable(after, policy, read) <==>
                  && Readable(before, policy, read)
                  && (IsManifest(policy, e) ==> e.size <= 65_536 && read(e).Some?))
            && LastManifest(after, policy, read) ==
                 (if IsManifest(policy, e) && read(e).Some? then read(e) else LastManifest(before, policy, read))
  {
    var before, after := entries[..n], entries[..n + 1];
    assert after[..n] == before && after[n] == entries[n];
    assert forall i | 0 <= i < n :: after[i] == before[i];
  }

  /** What a list that validates grants each of its entries, so that a walk may stop at the first one without it. */
  lemma ValidatesEach(zipBytes: nat, entries: seq<Entry>, n: nat, policy: Policy, meta: Metadata, read: Reader)
    requires Validates(zipBytes, entries, policy, meta, read) && n < |entries|
    ensures policy(entries[n]).Ok?
    ensures Files(entries[..n + 1]) <= MAX_FILE_COUNT && Bytes(entries[..n + 1]) <= MAX_UNCOMPRESSED_BYTES
    ensures IsManifest(policy, entries[n]) ==> entries[n].size <= MAX_MANIFEST_BYTES && read(entries[n]).Some?
  {
    CountersGrow(entries, n + 1);
  }

  /** `validateZipBuffer`: it accepts exactly the uploads that validate. */
  method Validate(zipBytes: nat, entries: seq<Entry>, policy: Policy, meta: Metadata, read: Reader)
    returns (reply: Result<Validated, string>)
    ensures reply.Ok? <==> Validates(zipBytes, entries, policy, meta, read)
    ensures reply.Ok? ==> reply.value.fileCount == Files(entries) && reply.value.uncompressedBytes == Bytes(entries)
  {
    if zipBytes == 0 { return Err("Uploaded artifact is empty"); }
    if zipBytes > MAX_ZIP_BYTES { return Err("Zip exceeds max size"); }
    var fileCount, uncompressedBytes := 0, 0;
    var hasEntrypoint, hasManifest, manifest := false, false, None;
    for n := 0 to |entries|
      invariant fileCount == Files(entries[..n]) <= MAX_FILE_COUNT
      invariant uncompressedBytes == Bytes(entries[..n]) <= MAX_UNCOMPRESSED_BYTES
      invariant forall i | 0 <= i < n :: policy(entries[i]).Ok?
      invariant Readable(entries[..n], policy, read)
      invariant hasEntrypoint <==> Has(entries[..n], policy, meta.entrypoint)
      invariant hasManifest <==> Has(entries[..n], policy, "manifest.json")
      invariant manifest == LastManifest(entries[..n], policy, read)
    {
      if Validates(zipBytes, entries, policy, meta, read) { ValidatesEach(zipBytes, entries, n, policy, meta, read); }
      PrefixCounts(entries, n);
      PrefixGrows(entries, n, policy, read, meta.entrypoint);
      PrefixGrows(entries, n, policy, read, "manifest.json");
      var e := entries[n];
      var name := policy(e);
      if name.Err? { return Err(name.error); }
      fileCount := fileCount + if IsDirectory(e) then 0 else 1;
      uncompressedBytes := uncompressedBytes + e.size;
      if fileCount > MAX_FILE_COUNT { return Err("too many files"); }
      if uncompressedBytes > MAX_UNCOMPRESSED_BYTES { return Err("uncompressed size exceeded"); }
      if name.value == meta.entrypoint { hasEntrypoint := true; }
      if name.value == "manifest.json" { hasManifest := true; }
      if !IsDirectory(e) && name.value == "manifest.json" {
        assert IsManifest(policy, entries[n]);
        if e.size > MAX_MANIFEST_BYTES { return Err("manifest.json too large"); }
        if read(e).None? { return Err("manifest.json is invalid"); }
        manifest := read(e);
      }
    }
    assert entries[..|entries|] == entries;
    if !hasManifest { return Err("Zip must contain manifest.json"); }
    if !hasEntrypoint { return Err("Zip must contain entrypoint"); }
    if manifest.None? || !Matches(manifest.value, meta) { return Err("manifest.json must match metadata"); }
    return Ok(Validated(fileCount, uncompressedBytes, manifest.value));
  }
}
