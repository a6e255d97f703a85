/** The artifact policy, and what it buys: the extracting walk accepts whatever the validating walk accepted. */
module ZipWalkers {
  import opened Options
  import opened ZipPaths
  import opened ZipScan

  const DENIED: set<string> :=
    {".env", ".npmrc", ".pypirc", ".netrc", "secrets.json", "credentials.json", "id_rsa", "id_dsa", "id_ecdsa",
     "id_ed25519", ".git", ".ssh", ".aws", ".gcp", ".azure"}

  predicate EndsWith(s: string, suffix: string) { |suffix| <= |s| && s[|s| - |suffix|..] == suffix }

  predicate IsSymlink(e: Entry) {
    var unixMode := (e.attributes >> 16) & 0xF000;
    || unixMode == 0xA000
    || (unixMode == 0 && e.attributes & 0x10 == 0 && EndsWith(e.fileName, ".lnk"))
  }

  predicate IsDenied(name: string) { exists part | part in Split(name) :: part in DENIED }

  /** `validateZipEntryPolicy`: the normalised name of an entry both walks admit. */
  function EntryPolicy(e: Entry): Result<string, string> {
    var name := NormalizeZipPath(e.fileName);
    if name.Err? then name
    else if IsDenied(name.value) then Err("Denied file in zip")
    else if IsSymlink(e) then Err("Symlinks are not allowed")
    else name
  }

  /** A symbolic link by its Unix mode, or a Windows shortcut without one that is no directory. */
  lemma SymlinkBits(e: Entry)
    ensures IsSymlink(e) <==>
              || e.attributes & 0xF000_0000 == 0xA000_0000
              || (e.attributes & 0xF000_0010 == 0 && EndsWith(e.fileName, ".lnk"))
  {
  }

  /** The names of files and directories that may hold credentials. */
  ghost predicate IsSecret(part: string) {
    part in {".env", ".npmrc", ".pypirc", ".netrc", "secrets.json", "credentials.json", "id_rsa", "id_dsa",
             "id_ecdsa", "id_ed25519", ".git", ".ssh", ".aws", ".gcp", ".azure"}
  }

  /** An entry is admitted exactly if its name is, no segment of its normal form is a secret's, and it is no link. */
  lemma AdmittedIff(e: Entry)
    ensures EntryPolicy(e).Ok? <==>
              && NormalizeZipPath(e.fileName).Ok?
              && (forall part | part in Split(NormalizeZipPath(e.fileName).value) :: !IsSecret(part))
              && e.attributes & 0xF000_0000 != 0xA000_0000
              && !(e.attributes & 0xF000_0010 == 0 && EndsWith(e.fileName, ".lnk"))
    ensures EntryPolicy(e).Ok? ==> EntryPolicy(e) == NormalizeZipPath(e.fileName)
  {
    SymlinkBits(e);
    var name := NormalizeZipPath(e.fileName);
    if name.Ok? { DeniedIff(name.value); }
  }

  lemma DeniedIff(name: string)
    ensures IsDenied(name) <==> exists part | part in Split(name) :: IsSecret(part)
  {
    if IsDenied(name) {
      var part :| part in Split(name) && part in DENIED;
      InDenied(part);
      assert IsSecret(part);
    }
    if part :| part in Split(name) && IsSecret(part) {
      InDenied(part);
      assert part in DENIED;
    }
  }

  lemma InDenied(part: string)
    ensures part in DENIED <==> IsSecret(part)
  {
    var all: set<string> :=
      {".env", ".npmrc", ".pypirc", ".netrc", "secrets.json", "credentials.json", "id_rsa", "id_dsa", "id_ecdsa",
       "id_ed25519", ".git", ".ssh", ".aws", ".gcp", ".azure"};
    assert DENIED == all;
  }

  /** A directory's normalised name keeps its slash, so it is never taken for a file. */
  lemma DirectoryNameKeepsSlash(e: Entry)
    requires EntryPolicy(e).Ok?
    ensures EndsInSlash(EntryPolicy(e).value) <==> IsDirectory(e)
  {
    NameKeepsSlash(e.fileName);
  }

  lemma NameKeepsSlash(value: string)
    requires NormalizeZipPath(value).Ok?
    ensures EndsInSlash(NormalizeZipPath(value).value) <==> EndsInSlash(value)
  {
    AcceptedStaysInside(value);
    SegmentsResolved(value);
    if Segments(value) != [] {
      SegmentsRender(Segments(value), false, EndsInSlash(value));
    } else {
      LeavesRootIff(value);
    }
  }

  /** Where an admitted entry is written. */
  function TargetOf(root: seq<string>, e: Entry): string { PathText(root + Segments(e.fileName)) }

  /** Every admitted entry joins, on or below the root. */
  lemma AdmittedJoins(root: seq<string>, e: Entry)
    requires IsRoot(root) && EntryPolicy(e).Ok?
    ensures SafeJoin(root, EntryPolicy(e).value) == Ok(TargetOf(root, e))
  {
    AcceptedJoins(root, e.fileName);
  }

  /** Whatever validation accepted passes all of the extractor's checks: policy, counts, bytes and safe joining. */
  method ExtractValidated(zipBytes: nat, entries: seq<Entry>, meta: Metadata, read: Reader, root: seq<string>)
    returns (reply: Result<Extraction, string>)
    requires Validates(zipBytes, entries, EntryPolicy, meta, read) && IsRoot(root)
    ensures reply.Ok? && reply.value.fileCount == Files(entries) && reply.value.uncompressedBytes == Bytes(entries)
    ensures |reply.value.targets| == |entries|
    ensures forall i | 0 <= i < |entries| :: reply.value.targets[i] == TargetOf(root, entries[i])
  {
    forall i | 0 <= i < |entries|
      ensures EntryPolicy(entries[i]).Ok?
      ensures SafeJoin(root, EntryPolicy(entries[i]).value) == Ok(TargetOf(root, entries[i]))
    {
      AdmittedJoins(root, entries[i]);
    }
    var join := name => SafeJoin(root, name);
    reply := Extract(entries, EntryPolicy, join, MAX_FILE_COUNT, MAX_UNCOMPRESSED_BYTES);
  }

  /** An accepted name is what the executor's own check would have made of it. */
  lemma NameIsValidEntrypoint(raw: string)
    requires NormalizeZipPath(raw).Ok?
    ensures ValidateEntrypoint(NormalizeZipPath(raw).value) == NormalizeZipPath(raw)
  {
    var name := NormalizeZipPath(raw).value;
    NormalizeIdempotent(raw);
    NoNewChars(raw, '\\');
    assert Slashes(name) == name;
    AcceptedIsRelative(raw);
  }

  lemma AcceptedIsRelative(raw: string)
    requires NormalizeZipPath(raw).Ok?
    ensures NormalizeZipPath(raw).value != "" && !IsAbsolute(NormalizeZipPath(raw).value)
  {
    SegmentsResolved(raw);
    if Segments(raw) != [] { SegmentsRender(Segments(raw), false, EndsInSlash(raw)); }
  }

  /**
    The entrypoint of a validated upload names an entry. The executor leaves that name alone, the extractor
    does unless it is blank, its path is where that entry is written, and the entry is a file unless the name
    ends in a slash.
   */
  lemma ValidatedEntrypoint(zipBytes: nat, entries: seq<Entry>, meta: Metadata, read: Reader, root: seq<string>)
    returns (i: nat)
    requires Validates(zipBytes, entries, EntryPolicy, meta, read) && IsRoot(root)
    ensures i < |entries| && EntryPolicy(entries[i]) == Ok(meta.entrypoint)
    ensures ValidateEntrypoint(meta.entrypoint) == Ok(meta.entrypoint)
    ensures NormalizeZipPath(meta.entrypoint) ==
              (if IsBlank(meta.entrypoint) then Err("unsafe path") else Ok(meta.entrypoint))
    ensures SafeJoin(root, meta.entrypoint) == Ok(TargetOf(root, entries[i]))
    ensures IsDirectory(entries[i]) <==> EndsInSlash(meta.entrypoint)
  {
    i := EntryNamed(entries, EntryPolicy, meta.entrypoint);
    EntrypointOf(root, entries[i]);
  }

  lemma EntryNamed(entries: seq<Entry>, policy: Policy, name: string) returns (i: nat)
    requires Has(entries, policy, name)
    ensures i < |entries| && policy(entries[i]) == Ok(name)
  {
    i :| i < |entries| && policy(entries[i]) == Ok(name);
  }

  lemma EntrypointOf(root: seq<string>, e: Entry)
    requires IsRoot(root) && EntryPolicy(e).Ok?
    ensures var name := EntryPolicy(e).value;
            && ValidateEntrypoint(name) == Ok(name)
            && NormalizeZipPath(name) == (if IsBlank(name) then Err("unsafe path") else Ok(name))
            && SafeJoin(root, name) == Ok(TargetOf(root, e))
            && (IsDirectory(e) <==> EndsInSlash(name))
  {
    DirectoryNameKeepsSlash(e);
    AcceptedAgainIff(e.fileName);
    BlankNormalIff(e.fileName);
    AdmittedJoins(root, e);
    NameIsValidEntrypoint(e.fileName);
  }
}
