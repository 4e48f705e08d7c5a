// api/scripts/generate_license_keys.py: the next key version is read off the file names in the key
// directory, and the unversioned names are pointed at the new pair.

module LicenseKeys {
  import opened Collections
  import opened Decimal

  /** A directory entry; contents are only compared. */
  datatype Entry = File(content: int) | Link(target: string)

  type Directory = map<string, Entry>

  const PREFIX := "private_key_v"
  const SUFFIX := ".pem"
  const PRIVATE_LINK := "private_key.pem"
  const PUBLIC_LINK := "public_key.pem"

  function PrivateName(version: nat): string {
    PREFIX + PrintNat(version) + SUFFIX
  }

  function PublicName(version: nat): string {
    "public_key_v" + PrintNat(version) + SUFFIX
  }

  /** The number of digits at the start. */
  function DigitRun(s: string): (n: nat)
    ensures n <= |s| && AllDigits(s[..n])
    ensures n == |s| || !IsDigit(s[n])
  {
    if s == "" || !IsDigit(s[0]) then 0 else 1 + DigitRun(s[1..])
  }

  /** re.match(r'private_key_v(\d+)\.pem', name): anchored at the start only. */
  function VersionOf(name: string): Option<nat> {
    if !(PREFIX <= name) then None
    else
      var rest := name[|PREFIX|..];
      var n := DigitRun(rest);
      if n > 0 && SUFFIX <= rest[n..] then Some(ParseNat(rest[..n])) else None
  }

  /** No name in the directory carries a higher version, and `latest` is zero or some name's version. */
  ghost predicate IsLatest(names: set<string>, latest: nat) {
    && (forall name :: name in names && VersionOf(name).Some? ==> VersionOf(name).value <= latest)
    && (latest == 0 || exists name :: name in names && VersionOf(name) == Some(latest))
  }

  /** `find_latest_key_version`, over the names in whatever order the directory lists them. */
  method FindLatestKeyVersion(listing: seq<string>) returns (latest: nat)
    ensures IsLatest(Elements(listing), latest)
  {
    latest := 0;
    for i := 0 to |listing|
      invariant forall k :: 0 <= k < i && VersionOf(listing[k]).Some? ==> VersionOf(listing[k]).value <= latest
      invariant latest == 0 || exists k :: 0 <= k < i && VersionOf(listing[k]) == Some(latest)
    {
      var version := VersionOf(listing[i]);
      if version.Some? && version.value > latest {
        latest := version.value;
      }
    }
  }

  // ----- names -----------------------------------------------------------------------------

  lemma {:induction false} DigitRunOf(digits: string, rest: string)
    requires AllDigits(digits) && (rest == "" || !IsDigit(rest[0]))
    ensures DigitRun(digits + rest) == |digits|
  {
    if digits == "" {
      assert digits + rest == rest;
    } else {
      assert (digits + rest)[1..] == digits[1..] + rest;
      DigitRunOf(digits[1..], rest);
    }
  }

  /** The name written for a version is read back as that version. */
  lemma VersionOfPrivateName(version: nat)
    ensures VersionOf(PrivateName(version)) == Some(version)
  {
    ParsePrint(version);
    var name, digits := PrivateName(version), PrintNat(version);
    assert name == PREFIX + (digits + SUFFIX);
    assert name[|PREFIX|..] == digits + SUFFIX;
    DigitRunOf(digits, SUFFIX);
    assert (digits + SUFFIX)[..|digits|] == digits && (digits + SUFFIX)[|digits|..] == SUFFIX;
  }

  lemma OtherNamesHaveNoVersion(version: nat)
    ensures VersionOf(PublicName(version)).None? && VersionOf(PRIVATE_LINK).None? && VersionOf(PUBLIC_LINK).None?
    ensures PublicName(version) != PRIVATE_LINK && PublicName(version) != PUBLIC_LINK
    ensures PRIVATE_LINK != PUBLIC_LINK
  {
    assert PREFIX[1] == 'r' && PublicName(version)[1] == 'u' && PUBLIC_LINK[1] == 'u' && PRIVATE_LINK[1] == 'r';
    assert PREFIX[11] == '_' && PRIVATE_LINK[11] == '.';
    assert PublicName(version)[10] == '_' && PUBLIC_LINK[10] == '.';
  }

  /** Which names carry a version: the prefix, digits, and the suffix, whatever follows. */
  lemma VersionedNames(name: string, version: nat)
    ensures VersionOf(name) == Some(version) <==> exists digits, rest :: IsVersioned(name, version, digits, rest)
  {
    if VersionOf(name) == Some(version) {
      var tail := name[|PREFIX|..];
      var n := DigitRun(tail);
      assert name == PREFIX + tail && tail == tail[..n] + tail[n..] && tail[n..] == SUFFIX + tail[n..][|SUFFIX|..];
      assert IsVersioned(name, version, tail[..n], tail[n..][|SUFFIX|..]);
    }
    if digits, rest :| IsVersioned(name, version, digits, rest) {
      VersionIsRead(name, version, digits, rest);
    }
  }

  ghost predicate IsVersioned(name: string, version: nat, digits: string, rest: string) {
    && digits != "" && (forall i :: 0 <= i < |digits| ==> '0' <= digits[i] <= '9')
    && name == "private_key_v" + (digits + (".pem" + rest))
    && AllDigits(digits) && ParseNat(digits) == version
  }

  lemma VersionIsRead(name: string, version: nat, digits: string, rest: string)
    requires IsVersioned(name, version, digits, rest)
    ensures VersionOf(name) == Some(version)
  {
    var tail := digits + (SUFFIX + rest);
    assert name[|PREFIX|..] == tail;
    DigitRunOf(digits, SUFFIX + rest);
    assert tail[..|digits|] == digits && tail[|digits|..] == SUFFIX + rest;
  }

  /** The names a run writes for its version. */
  lemma WrittenNames(version: nat)
    ensures NamesFor(version) == Names("private_key_v" + PrintNat(version) + ".pem", "public_key_v" + PrintNat(version) + ".pem",
                                       "private_key.pem", "public_key.pem")
  {
  }

  // ----- generating ------------------------------------------------------------------------

  /** The circumstances of a run: how far it gets, whether links work, and the answers to its question. */
  datatype Run = Run(steps: nat, symlinks: bool, force: bool, confirmed: bool, privateKey: int, publicKey: int)

  /** The entry left under an unversioned name: a link, or a copy where links are not supported. */
  function Pointer(symlinks: bool, target: string, content: int): Entry {
    if symlinks then Link(target) else File(content)
  }

  /** What an unversioned name finally gives. */
  function Resolve(directory: Directory, name: string): Option<int> {
    if name !in directory then None
    else match directory[name]
         case File(content) => Some(content)
         case Link(target) =>
           if target in directory && directory[target].File? then Some(directory[target].content) else None
  }

  /** The four names a run writes, in the order of writing. */
  datatype Names = Names(privateKey: string, publicKey: string, privateLink: string, publicLink: string)

  function NamesFor(version: nat): Names {
    Names(PrivateName(version), PublicName(version), PRIVATE_LINK, PUBLIC_LINK)
  }

  function Written(directory: Directory, names: Names, run: Run): Directory {
    var d1 := if run.steps > 0 then directory[names.privateKey := File(run.privateKey)] else directory;
    var d2 := if run.steps > 1 then d1[names.publicKey := File(run.publicKey)] else d1;
    var d3 := if run.steps > 2 then d2[names.privateLink := Pointer(run.symlinks, names.privateKey, run.privateKey)] else d2;
    if run.steps > 3 then d3[names.publicLink := Pointer(run.symlinks, names.publicKey, run.publicKey)] else d3
  }

  /** The directory after a run with the given version: up to four writes, unless the run declines to overwrite. */
  function Generated(directory: Directory, version: nat, run: Run): Directory {
    if PublicName(version) in directory && !run.force && !run.confirmed then directory
    else Written(directory, NamesFor(version), run)
  }

  /** The next version's private key has no file yet, and its four names are different. */
  lemma NextNamesAreNew(present: set<string>, latest: nat, names: Names)
    requires IsLatest(present, latest) && names == NamesFor(latest + 1)
    ensures names.privateKey !in present
    ensures names.privateKey != names.publicKey && names.privateKey != names.privateLink
    ensures names.publicKey != names.privateLink && names.publicKey != names.publicLink
  {
    VersionOfPrivateName(latest + 1);
    OtherNamesHaveNoVersion(latest + 1);
  }

  class KeyDirectory {
    var entries: Directory

    /** `create_symlink`: whatever has the link's name is replaced. */
    method CreateSymlink(name: string, target: string, symlinks: bool)
      requires target in entries && entries[target].File? && name != target
      modifies this
      ensures entries == old(entries)[name := if symlinks then Link(target) else File(old(entries)[target].content)]
    {
      if name in entries {
        entries := entries - {name};
      }
      if symlinks {
        entries := entries[name := Link(target)];
      } else {
        entries := entries[name := entries[target]];
      }
    }

    /** The question about existing files, and the writes if it is answered with yes or not asked. */
    method WriteUnlessDeclined(names: Names, run: Run) returns (completed: bool)
      requires names.privateKey !in entries
      requires names.privateKey != names.publicKey && names.privateKey != names.privateLink
      requires names.publicKey != names.privateLink && names.publicKey != names.publicLink
      modifies this
      ensures var declined := names.publicKey in old(entries) && !run.force && !run.confirmed;
              && entries == (if declined then old(entries) else Written(old(entries), names, run))
              && (completed <==> run.steps >= 4 && !declined)
    {
      if names.privateKey in entries || names.publicKey in entries {
        if !run.force && !run.confirmed {
          return false;
        }
      }
      completed := WriteKeys(names, run);
    }

    /** The four writes of a run, as far as it gets. */
    method WriteKeys(names: Names, run: Run) returns (completed: bool)
      requires names.privateKey != names.publicKey && names.privateKey != names.privateLink
      requires names.publicKey != names.privateLink && names.publicKey != names.publicLink
      modifies this
      ensures entries == Written(old(entries), names, run)
      ensures completed <==> run.steps >= 4
    {
      if run.steps == 0 {
        return false;
      }
      entries := entries[names.privateKey := File(run.privateKey)];
      if run.steps == 1 {
        return false;
      }
      entries := entries[names.publicKey := File(run.publicKey)];
      if run.steps == 2 {
        return false;
      }
      CreateSymlink(names.privateLink, names.privateKey, run.symlinks);
      if run.steps == 3 {
        return false;
      }
      CreateSymlink(names.publicLink, names.publicKey, run.symlinks);
      return true;
    }

    /** `listing` is the order in which the directory lists its names. `completed` if the run got to its end. */
    method GenerateKeys(listing: seq<string>, run: Run) returns (version: nat, completed: bool)
      requires Elements(listing) == entries.Keys
      modifies this
      ensures version > 0 && IsLatest(old(entries).Keys, version - 1)
      ensures PrivateName(version) !in old(entries)
      ensures entries == Generated(old(entries), version, run)
      ensures completed <==> run.steps >= 4 && (PublicName(version) !in old(entries) || run.force || run.confirmed)
    {
      var latest := FindLatestKeyVersion(listing);
      version := latest + 1;
      var names := NamesFor(version);
      NextNamesAreNew(entries.Keys, latest, names);
      completed := WriteUnlessDeclined(names, run);
    }
  }

  /** Runs one after the other; each takes the version after the latest it finds. */
  ghost predicate Follows(history: seq<Directory>, versions: seq<nat>, runs: seq<Run>) {
    && |history| == |runs| + 1 && |versions| == |runs|
    && forall i :: 0 <= i < |runs| ==>
         && versions[i] > 0 && IsLatest(history[i].Keys, versions[i] - 1)
         && history[i + 1] == Generated(history[i], versions[i], runs[i])
  }

  lemma OnlyNamesWritten(directory: Directory, names: Names, run: Run, name: string)
    requires name !in {names.privateKey, names.publicKey, names.privateLink, names.publicLink}
    ensures name in Written(directory, names, run) <==> name in directory
    ensures name in directory ==> Written(directory, names, run)[name] == directory[name]
  {
  }

  lemma PrivateKeyUntouched(directory: Directory, version: nat, run: Run, name: string)
    requires version > 0 && IsLatest(directory.Keys, version - 1)
    requires name in directory && VersionOf(name).Some?
    ensures name in Generated(directory, version, run) && Generated(directory, version, run)[name] == directory[name]
  {
    VersionOfPrivateName(version);
    OtherNamesHaveNoVersion(version);
    OnlyNamesWritten(directory, NamesFor(version), run, name);
  }

  /** Over any sequence of runs, interrupted or not, no private key file is ever overwritten or lost. */
  lemma {:induction false} PrivateKeysAreKept(history: seq<Directory>, versions: seq<nat>, runs: seq<Run>,
                                              i: nat, k: nat, name: string)
    requires Follows(history, versions, runs) && i <= k < |history|
    requires name in history[i] && VersionOf(name).Some?
    ensures name in history[k] && history[k][name] == history[i][name]
    decreases k - i
  {
    if i < k {
      PrivateKeyUntouched(history[i], versions[i], runs[i], name);
      PrivateKeysAreKept(history, versions, runs, i + 1, k, name);
    }
  }

  /** A version once written is never chosen again: later runs choose strictly higher ones. */
  lemma VersionsIncrease(history: seq<Directory>, versions: seq<nat>, runs: seq<Run>, i: nat, k: nat)
    requires Follows(history, versions, runs) && i < k < |runs|
    requires PrivateName(versions[i]) in history[i + 1]
    ensures versions[i] < versions[k]
  {
    VersionOfPrivateName(versions[i]);
    PrivateKeysAreKept(history, versions, runs, i + 1, k, PrivateName(versions[i]));
  }

  lemma AllWritten(directory: Directory, names: Names, run: Run)
    requires run.steps >= 4
    requires names.privateKey != names.publicKey && names.privateLink != names.publicLink
    requires names.privateLink !in {names.privateKey, names.publicKey} && names.publicLink !in {names.privateKey, names.publicKey}
    ensures var after := Written(directory, names, run);
            && after.Keys == directory.Keys + {names.privateKey, names.publicKey, names.privateLink, names.publicLink}
            && Resolve(after, names.privateLink) == Some(run.privateKey) == Resolve(after, names.privateKey)
            && Resolve(after, names.publicLink) == Some(run.publicKey) == Resolve(after, names.publicKey)
  {
  }

  /**
   * The directory after a completed run, name by name: the two new files, the two unversioned names as links to
   * them, or as copies where links do not work, and everything else as it was.
   */
  lemma CompletedRunByName(directory: Directory, version: nat, run: Run, name: string)
    requires version > 0 && IsLatest(directory.Keys, version - 1) && run.steps >= 4
    requires "public_key_v" + PrintNat(version) + ".pem" !in directory || run.force || run.confirmed
    ensures var after := Generated(directory, version, run);
            var privateKey, publicKey := "private_key_v" + PrintNat(version) + ".pem", "public_key_v" + PrintNat(version) + ".pem";
            if name == privateKey then name in after && after[name] == File(run.privateKey)
            else if name == publicKey then name in after && after[name] == File(run.publicKey)
            else if name == "private_key.pem" then
              name in after && after[name] == if run.symlinks then Link(privateKey) else File(run.privateKey)
            else if name == "public_key.pem" then
              name in after && after[name] == if run.symlinks then Link(publicKey) else File(run.publicKey)
            else (name in after <==> name in directory) && (name in directory ==> after[name] == directory[name])
  {
    NamesAreApart(version);
    WrittenByName(directory, NamesFor(version), run, name);
  }

  lemma NamesAreApart(version: nat)
    ensures NamesFor(version) == Names("private_key_v" + PrintNat(version) + ".pem", "public_key_v" + PrintNat(version) + ".pem",
                                       "private_key.pem", "public_key.pem")
    ensures Apart(NamesFor(version))
  {
    WrittenNames(version);
    VersionOfPrivateName(version);
    OtherNamesHaveNoVersion(version);
  }

  predicate Apart(names: Names) {
    && names.privateKey != names.publicKey && names.privateLink != names.publicLink
    && names.privateKey != names.privateLink && names.privateKey != names.publicLink
    && names.publicKey != names.privateLink && names.publicKey != names.publicLink
  }

  lemma WrittenByName(directory: Directory, names: Names, run: Run, name: string)
    requires Apart(names) && run.steps >= 4
    ensures var after := Written(directory, names, run);
            if name == names.privateKey then name in after && after[name] == File(run.privateKey)
            else if name == names.publicKey then name in after && after[name] == File(run.publicKey)
            else if name == names.privateLink then
              name in after && after[name] == if run.symlinks then Link(names.privateKey) else File(run.privateKey)
            else if name == names.publicLink then
              name in after && after[name] == if run.symlinks then Link(names.publicKey) else File(run.publicKey)
            else (name in after <==> name in directory) && (name in directory ==> after[name] == directory[name])
  {
  }

  /** A run that is cut short has written its names in this order: both keys, the private link, the public link. */
  lemma WrittenSoFar(directory: Directory, names: Names, run: Run, name: string)
    requires Apart(names) && name in {names.privateKey, names.publicKey, names.privateLink, names.publicLink}
    ensures var after, place := Written(directory, names, run),
                                if name == names.privateKey then 0 else if name == names.publicKey then 1
                                else if name == names.privateLink then 2 else 3;
            if run.steps > place then name in after && after[name] == Written(directory, names, run.(steps := 4))[name]
            else (name in after <==> name in directory) && (name in directory ==> after[name] == directory[name])
  {
  }

  /** A run that would overwrite a public key and is neither forced nor confirmed changes nothing. */
  lemma DeclinedRunChangesNothing(directory: Directory, version: nat, run: Run)
    requires "public_key_v" + PrintNat(version) + ".pem" in directory && !run.force && !run.confirmed
    ensures Generated(directory, version, run) == directory
  {
  }

  /** A completed run leaves the unversioned names on its own, highest version. */
  lemma CompletedRunIsCurrent(directory: Directory, version: nat, run: Run)
    requires version > 0 && IsLatest(directory.Keys, version - 1)
    requires run.steps >= 4 && (PublicName(version) !in directory || run.force || run.confirmed)
    ensures var after := Generated(directory, version, run);
            && IsLatest(after.Keys, version)
            && Resolve(after, PRIVATE_LINK) == Some(run.privateKey) == Resolve(after, PrivateName(version))
            && Resolve(after, PUBLIC_LINK) == Some(run.publicKey) == Resolve(after, PublicName(version))
  {
    VersionOfPrivateName(version);
    OtherNamesHaveNoVersion(version);
    var names := NamesFor(version);
    assert names.privateKey != names.publicKey;
    AllWritten(directory, names, run);
    LatestGrows(directory.Keys, names, version);
  }

  lemma LatestGrows(before: set<string>, names: Names, version: nat)
    requires version > 0 && IsLatest(before, version - 1) && VersionOf(names.privateKey) == Some(version)
    requires VersionOf(names.publicKey).None? && VersionOf(names.privateLink).None? && VersionOf(names.publicLink).None?
    ensures IsLatest(before + {names.privateKey, names.publicKey, names.privateLink, names.publicLink}, version)
  {
    assert names.privateKey in {names.privateKey, names.publicKey, names.privateLink, names.publicLink};
  }
}
