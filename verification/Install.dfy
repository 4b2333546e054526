/** Installing the CLI, after `desktop/src/bootstrap.rs`: fetch a checksum, stage the
    download beside the destination, verify it, and rename it into place. The network,
    the digest and every call that can fail are parameters, so a statement for all of
    them covers every download and every failure point. A string is bytes, one per
    character. */
module Install {
  import opened Wrappers
  import opened Numerals
  import opened Sidecar

  const MAX_CHECKSUM := 0x1000
  const MAX_BINARY := 0x1000_0000
  const ATTEMPTS := 16
  const EXECUTABLE := "gantry"

  type Files = map<string, string>

  type Digest = string -> seq<Byte>

  /** One read of a response: some bytes (none at its end), or an error. */
  datatype ReadResult = Chunk(bytes: string) | Interrupted | Broken

  /** A response that is not 200 OK, or its advertised length and its reads. */
  datatype Response = Refused | Body(total: Option<nat>, parts: seq<ReadResult>)

  datatype Channel = Channel(sidecar: Response, binary: Response)

  /** What is offered, where it goes, and the host it must run on. `tag` makes staging
      names unique. */
  datatype Offer = Offer(asset: string, directory: string, tag: string, os: string, arch: string)

  /** What the calls to the host do: whether the directory is ready, which staging names
      cannot be opened, how many bytes the file can take, and whether each later call works. */
  datatype Host = Host(ready: bool, blocked: set<nat>, permits: bool, room: Option<nat>, syncs: bool,
                       readsBack: bool, signed: bool, renames: bool, durable: bool, removes: bool)

  datatype Result = Installed | NotReady | NoChecksum | NotStaged | NotDownloaded | WrongDigest | NotPersisted
                  | NotExecutable | NotRenamed | NotDurable

  // ---------------------------------------------------------- what is received

  /** All the bytes of a response up to its end; interrupted reads are repeated. */
  function Whole(parts: seq<ReadResult>): Option<string> {
    if parts == [] then Some("")
    else match parts[0]
      case Chunk(bytes) => if bytes == "" then Some("") else After(bytes, Whole(parts[1..]))
      case Interrupted => Whole(parts[1..])
      case Broken => None
  }

  function After(bytes: string, rest: Option<string>): Option<string> {
    if rest.None? then None else Some(bytes + rest.value)
  }

  /** What a download gives: the whole body, within the limit and as long as advertised. */
  function Received(response: Response, maximum: nat): (body: Option<string>)
    ensures body.Some? ==> |body.value| <= maximum
  {
    if response.Refused? then None
    else
      var body := Whole(response.parts);
      if body.Some? && |body.value| <= maximum && (response.total.Some? ==> response.total.value == |body.value|)
      then body else None
  }

  /** What the sidecar says the digest must be. */
  function Expected(channel: Channel, asset: string): Option<seq<Byte>> {
    var body := Received(channel.sidecar, MAX_CHECKSUM);
    if body.None? then None else Checksum(body.value, asset)
  }

  /** `check_header`. */
  predicate HeaderPasses(header: string, os: string, arch: string) {
    if os == "linux" then
      && |header| >= 20
      && header[0] == 0x7f as char && header[1..4] == "ELF" && header[4] == 2 as char && header[5] == 1 as char
      && (arch == "x86_64" || arch == "aarch64")
      && header[18] as int + 256 * header[19] as int == (if arch == "x86_64" then 62 else 183)
    else
      && os == "macos" && arch == "aarch64" && |header| >= 8
      && header[0] == 0xcf as char && header[1] == 0xfa as char
      && header[2] == 0xed as char && header[3] == 0xfe as char
      && header[4] == 0x0c as char && header[5] == 0 as char && header[6] == 0 as char && header[7] == 1 as char
  }

  function Head(bytes: string): string {
    if |bytes| <= 64 then bytes else bytes[..64]
  }

  // ---------------------------------------------------------- executables

  /** Little-endian words. */
  function Word16(n: nat): (w: string)
    requires n < 0x1_0000
    ensures |w| == 2
  {
    [(n % 256) as char, (n / 256) as char]
  }

  function Word32(n: nat): (w: string)
    requires n < 0x1_0000_0000
    ensures |w| == 4
  {
    Word16(n % 0x1_0000) + Word16(n / 0x1_0000)
  }

  /** The platforms the CLI is published for. */
  datatype Platform = LinuxAmd64 | LinuxArm64 | MacArm64

  function Os(h: Platform): string {
    if h == MacArm64 then "macos" else "linux"
  }

  function Arch(h: Platform): string {
    if h == LinuxAmd64 then "x86_64" else "aarch64"
  }

  /** How an executable of a platform begins: an ELF identification of a 64-bit
      little-endian file, its type and the number of its machine (62 for x86-64, 183 for
      AArch64); or the magic number of a 64-bit Mach-O file and the CPU type of arm64.
      What `rest` holds is free. */
  function Executable(h: Platform, ident: string, kind: nat, rest: string): string
    requires |ident| == 10 && kind < 0x1_0000
  {
    match h
    case LinuxAmd64 => Elf(ident, kind, 62) + rest
    case LinuxArm64 => Elf(ident, kind, 183) + rest
    case MacArm64 => Word32(0xfeed_facf) + Word32(0x0100_000c) + rest
  }

  function Elf(ident: string, kind: nat, machine: nat): (header: string)
    requires |ident| == 10 && kind < 0x1_0000 && machine < 0x1_0000
    ensures |header| == 20
  {
    [0x7f as char] + "ELF" + [2 as char, 1 as char] + ident + Word16(kind) + Word16(machine)
  }

  lemma ElfPasses(ident: string, kind: nat, machine: nat, rest: string, os: string, arch: string)
    requires |ident| == 10 && kind < 0x1_0000 && machine < 0x1_0000
    ensures HeaderPasses(Head(Elf(ident, kind, machine) + rest), os, arch) <==>
      os == "linux" && ((arch == "x86_64" && machine == 62) || (arch == "aarch64" && machine == 183))
  {
    var file := Elf(ident, kind, machine) + rest;
    var head := Head(file);
    assert head[0] == 0x7f as char && head[1] == 'E' && head[2] == 'L' && head[3] == 'F';
    assert head[1..4] == "ELF" && head[4] == 2 as char && head[5] == 1 as char;
    assert head[18] as int + 256 * head[19] as int == machine;
  }

  lemma MachPasses(rest: string, os: string, arch: string)
    ensures HeaderPasses(Head(Word32(0xfeed_facf) + Word32(0x0100_000c) + rest), os, arch) <==>
      os == "macos" && arch == "aarch64"
  {
    var head := Head(Word32(0xfeed_facf) + Word32(0x0100_000c) + rest);
    assert head[0] == 0xcf as char && head[1] == 0xfa as char && head[2] == 0xed as char && head[3] == 0xfe as char;
    assert head[4] == 0x0c as char && head[5] == 0 as char && head[6] == 0 as char && head[7] == 1 as char;
  }

  /** An executable of a platform passes on that platform, and on no other. */
  lemma ExecutablePasses(h: Platform, ident: string, kind: nat, rest: string, os: string, arch: string)
    requires |ident| == 10 && kind < 0x1_0000
    ensures HeaderPasses(Head(Executable(h, ident, kind, rest)), os, arch) <==> os == Os(h) && arch == Arch(h)
  {
    hide HeaderPasses;
    match h
    case LinuxAmd64 => ElfPasses(ident, kind, 62, rest, os, arch);
    case LinuxArm64 => ElfPasses(ident, kind, 183, rest, os, arch);
    case MacArm64 => MachPasses(rest, os, arch);
  }

  /** And nothing else passes anywhere: what passes begins as an executable of the host. */
  lemma PassesIsExecutable(file: string, os: string, arch: string)
    returns (h: Platform, ident: string, kind: nat, rest: string)
    requires HeaderPasses(Head(file), os, arch) && forall i :: 0 <= i < |file| ==> file[i] as int < 256
    ensures |ident| == 10 && kind < 0x1_0000
    ensures os == Os(h) && arch == Arch(h) && file == Executable(h, ident, kind, rest)
  {
    var head := Head(file);
    assert forall i :: 0 <= i < |head| ==> head[i] == file[i];
    if os == "linux" {
      h := if arch == "x86_64" then LinuxAmd64 else LinuxArm64;
      ident, rest := file[6..16], file[20..];
      kind := file[16] as int + 256 * file[17] as int;
      ElfSpelled(file, ident, kind, if arch == "x86_64" then 62 else 183);
    } else {
      h, ident, kind, rest := MacArm64, "0123456789", 0, file[8..];
      var eight := Word32(0xfeed_facf) + Word32(0x0100_000c);
      assert eight == [0xcf as char, 0xfa as char, 0xed as char, 0xfe as char,
                       0x0c as char, 0 as char, 0 as char, 1 as char];
      assert file[..8] == eight;
      assert file == file[..8] + rest;
    }
  }

  lemma ElfSpelled(file: string, ident: string, kind: nat, machine: nat)
    requires |file| >= 20 && forall i :: 0 <= i < |file| ==> file[i] as int < 256
    requires file[0] == 0x7f as char && file[1] == 'E' && file[2] == 'L' && file[3] == 'F'
    requires file[4] == 2 as char && file[5] == 1 as char && ident == file[6..16]
    requires kind == file[16] as int + 256 * file[17] as int && kind < 0x1_0000
    requires machine == file[18] as int + 256 * file[19] as int && machine < 0x1_0000
    ensures file == Elf(ident, kind, machine) + file[20..]
  {
    assert Word16(kind) == [file[16], file[17]];
    assert Word16(machine) == [file[18], file[19]];
    var header := Elf(ident, kind, machine);
    forall i | 0 <= i < 20 ensures header[i] == file[i] {
      assert 6 <= i < 16 ==> header[i] == ident[i - 6];
    }
    assert file[..20] == header;
  }

  // ---------------------------------------------------------- files

  function Destination(offer: Offer): string {
    offer.directory + "/" + EXECUTABLE
  }

  function Staging(offer: Offer, attempt: nat): string {
    offer.directory + "/" + (".gantry-install-" + offer.tag + "-" + Decimal(attempt))
  }

  predicate IsStaging(offer: Offer, path: string) {
    exists n: nat :: n < ATTEMPTS && path == Staging(offer, n)
  }

  lemma StagingIsElsewhere(offer: Offer, n: nat)
    ensures Staging(offer, n) != Destination(offer)
  {
    var i := |offer.directory| + 1;
    assert Staging(offer, n)[i] == '.';
    assert Destination(offer)[i] == 'g';
  }

  /** Bytes the sidecar vouches for, that look like an executable of this host, within the limit. */
  predicate Genuine(digest: Digest, channel: Channel, offer: Offer, bytes: string) {
    && Expected(channel, offer.asset) == Some(digest(bytes))
    && HeaderPasses(Head(bytes), offer.os, offer.arch)
    && |bytes| <= MAX_BINARY
  }

  /** No file but the destination and new staging files differs, and the destination is as
      before or genuine. */
  predicate Safe(digest: Digest, channel: Channel, offer: Offer, before: Files, now: Files) {
    var destination := Destination(offer);
    && (forall p :: p in before && p != destination ==> p in now && now[p] == before[p])
    && (forall p :: p in now && p !in before && p != destination ==> IsStaging(offer, p) && |now[p]| <= MAX_BINARY)
    && (Same(before, now, destination) || (destination in now && Genuine(digest, channel, offer, now[destination])))
  }

  predicate Same(before: Files, now: Files, path: string) {
    if path in before then path in now && now[path] == before[path] else path !in now
  }

  /** The file system, and every state it has been in. */
  class Disk {
    var files: Files
    ghost var past: seq<Files>

    method Create(path: string)
      modifies this
      ensures files == old(files)[path := ""] && past == old(past) + [files]
    {
      files := files[path := ""];
      past := past + [files];
    }

    /** Append what fits; the rest of a write that does not fit is lost. */
    method Append(path: string, bytes: string, room: Option<nat>) returns (ok: bool)
      requires path in files
      modifies this
      ensures ok <==> Fits(room, |old(files)[path]| + |bytes|)
      ensures path in files && files == old(files)[path := files[path]] && past == old(past) + [files]
      ensures if ok then files[path] == old(files)[path] + bytes
              else |files[path]| <= |old(files)[path]| + |bytes|
    {
      var used := |files[path]|;
      ok := Fits(room, used + |bytes|);
      var kept := if ok then |bytes| else if room.value < used then 0 else room.value - used;
      files := files[path := files[path] + bytes[..kept]];
      past := past + [files];
      assert ok ==> bytes[..kept] == bytes;
    }

    method Rename(from: string, to: string)
      requires from in files
      modifies this
      ensures files == (old(files) - {from})[to := old(files)[from]] && past == old(past) + [files]
    {
      files := (files - {from})[to := files[from]];
      past := past + [files];
    }

    method Remove(path: string)
      modifies this
      ensures files == old(files) - {path} && past == old(past) + [files]
    {
      files := files - {path};
      past := past + [files];
    }
  }

  predicate Fits(room: Option<nat>, size: nat) {
    room.None? || size <= room.value
  }

  /** One file has grown, within the limit; the others are as before. */
  predicate Grown(before: Files, now: Files, path: string, maximum: nat) {
    path in now && now == before[path := now[path]] && |now[path]| <= maximum
  }

  /** States reached since `past` was `from` long. */
  ghost predicate AllGrown(before: Files, past: seq<Files>, from: nat, path: string, maximum: nat) {
    forall k :: from <= k < |past| ==> Grown(before, past[k], path, maximum)
  }

  ghost predicate AllSafe(digest: Digest, channel: Channel, offer: Offer, before: Files, past: seq<Files>, from: nat) {
    forall k :: from <= k < |past| ==> Safe(digest, channel, offer, before, past[k])
  }

  // ---------------------------------------------------------- download

  lemma WholeStep(body: string, parts: seq<ReadResult>, i: nat)
    requires i < |parts|
    ensures
      After(body, Whole(parts[i..])) ==
      match parts[i]
      case Chunk(bytes) => if bytes == "" then Some(body) else After(body + bytes, Whole(parts[i + 1..]))
      case Interrupted => After(body, Whole(parts[i + 1..]))
      case Broken => None
  {
    assert parts[i..][1..] == parts[i + 1..];
    match parts[i]
    case Chunk(bytes) =>
      var rest := Whole(parts[i + 1..]);
      if bytes == "" {
        assert body + "" == body;
      } else if rest.Some? {
        assert body + (bytes + rest.value) == body + bytes + rest.value;
      }
    case _ =>
  }

  /** The bytes of the chunks, however they are cut. */
  function Flat(parts: seq<ReadResult>): string {
    if parts == [] then "" else (if parts[0].Chunk? then parts[0].bytes else "") + Flat(parts[1..])
  }

  predicate Steady(parts: seq<ReadResult>) {
    forall i :: 0 <= i < |parts| ==> !parts[i].Broken? && parts[i] != Chunk("")
  }

  /** A body is its bytes: neither its chunks nor interruptions show. */
  lemma {:induction false} ChunksDoNotShow(parts: seq<ReadResult>)
    requires Steady(parts)
    ensures Whole(parts) == Some(Flat(parts))
  {
    if parts != [] {
      assert forall i :: 1 <= i < |parts| ==> parts[i] == parts[1..][i - 1];
      ChunksDoNotShow(parts[1..]);
      assert parts[0] != Chunk("");
      assert "" + Flat(parts[1..]) == Flat(parts[1..]);
    }
  }

  /** The response ends after `n` parts, none of them an error, that make up the body. */
  predicate EndsAt(parts: seq<ReadResult>, n: nat, body: string) {
    n <= |parts| && (n == |parts| || parts[n] == Chunk("")) && Steady(parts[..n]) && Flat(parts[..n]) == body
  }

  lemma SteadyRest(parts: seq<ReadResult>)
    requires parts != []
    ensures Steady(parts) <==> !parts[0].Broken? && parts[0] != Chunk("") && Steady(parts[1..])
  {
    var rest := parts[1..];
    if Steady(rest) && !parts[0].Broken? && parts[0] != Chunk("") {
      forall i | 0 <= i < |parts| ensures !parts[i].Broken? && parts[i] != Chunk("") {
        assert i > 0 ==> parts[i] == rest[i - 1];
      }
    }
  }

  lemma {:induction false} WholeExactly(parts: seq<ReadResult>, body: string)
    ensures Whole(parts) == Some(body) <==> exists n: nat :: EndsAt(parts, n, body)
  {
    if parts == [] {
      assert Steady([]) && Flat([]) == "";
      assert EndsAt(parts, 0, "");
    } else {
      var rest := parts[1..];
      if Whole(parts) == Some(body) {
        if parts[0] == Chunk("") {
          assert parts[..0] == [];
          assert EndsAt(parts, 0, "");
        } else {
          var left := Whole(rest).value;
          WholeExactly(rest, left);
          var n: nat :| EndsAt(rest, n, left);
          EndsLater(parts, n, left);
        }
      }
      if exists n: nat :: EndsAt(parts, n, body) {
        var n: nat :| EndsAt(parts, n, body);
        if n == 0 {
          assert parts[..0] == [];
        } else {
          assert parts[..n][0] == parts[0];
          assert parts[..n][1..] == rest[..n - 1];
          var left := Flat(rest[..n - 1]);
          SteadyRest(parts[..n]);
          assert EndsAt(rest, n - 1, left);
          WholeExactly(rest, left);
          assert "" + left == left;
        }
      }
    }
  }

  lemma EndsLater(parts: seq<ReadResult>, n: nat, left: string)
    requires parts != [] && !parts[0].Broken? && parts[0] != Chunk("") && EndsAt(parts[1..], n, left)
    ensures EndsAt(parts, n + 1, if parts[0].Chunk? then parts[0].bytes + left else left)
  {
    var rest := parts[1..];
    assert parts[..n + 1] == [parts[0]] + rest[..n];
    SteadyRest([parts[0]] + rest[..n]);
    assert "" + left == left;
  }

  /** A download is received exactly when it was sent, its reads end without an error, it is
      within the limit and as long as advertised; and then it is what the reads brought. */
  lemma ReceivedExactly(response: Response, maximum: nat, body: string)
    ensures Received(response, maximum) == Some(body) <==>
      && response.Body? && (exists n: nat :: EndsAt(response.parts, n, body))
      && |body| <= maximum && (response.total.Some? ==> response.total.value == |body|)
  {
    if response.Body? {
      WholeExactly(response.parts, body);
    }
  }

  /** `stream`, with what its caller does to each chunk: the bytes are collected (or
      hashed), and written to a file if there is one. */
  method Stream(response: Response, maximum: nat, disk: Disk, file: Option<string>, room: Option<nat>)
    returns (ok: bool, body: string)
    requires file.Some? ==> file.value in disk.files && disk.files[file.value] == ""
    modifies disk
    ensures ok <==> Received(response, maximum).Some? && (file.Some? ==> Fits(room,
        |Received(response, maximum).value|))
    ensures ok ==> body == Received(response, maximum).value
    ensures old(disk.past) <= disk.past
    ensures file.None? ==> disk.files == old(disk.files) && disk.past == old(disk.past)
    ensures file.Some? ==> Grown(old(disk.files), disk.files, file.value, maximum)
    ensures file.Some? ==> AllGrown(old(disk.files), disk.past, |old(disk.past)|, file.value, maximum)
    ensures ok && file.Some? ==> disk.files[file.value] == body
  {
    ok, body := false, "";
    if response.Refused? {
      return;
    }
    if response.total.Some? && response.total.value > maximum {
      return;
    }
    var parts := response.parts;
    assert parts[0..] == parts;
    assert Whole(parts).Some? ==> "" + Whole(parts).value == Whole(parts).value;
    var i, ended := 0, false;
    while i < |parts| && !ended
      invariant 0 <= i <= |parts| && |body| <= maximum && (file.Some? ==> Fits(room, |body|))
      invariant Whole(parts) == if ended then Some(body) else After(body, Whole(parts[i..]))
      invariant old(disk.past) <= disk.past
      invariant file.None? ==> disk.files == old(disk.files) && disk.past == old(disk.past)
      invariant file.Some? ==> disk.files == old(disk.files)[file.value := body]
      invariant file.Some? ==> AllGrown(old(disk.files), disk.past, |old(disk.past)|, file.value, maximum)
    {
      WholeStep(body, parts, i);
      match parts[i] {
        case Broken => return;
        case Interrupted =>
        case Chunk(bytes) =>
          if bytes == "" {
            ended := true;
          } else {
            if |body| + |bytes| > maximum {
              return;
            }
            if file.Some? {
              var written := disk.Append(file.value, bytes, room);
              if !written {
                return;
              }
            }
            body := body + bytes;
          }
      }
      i := i + 1;
    }
    assert body + "" == body;
    ok := response.total.None? || response.total.value == |body|;
  }

  // ---------------------------------------------------------- staging

  /** The first staging name that is free, unless an open fails before it is reached. */
  function FirstFree(files: Files, offer: Offer, blocked: set<nat>, n: nat): (r: Option<nat>)
    ensures r.Some? ==> r.value < ATTEMPTS && Staging(offer, r.value) !in files
    decreases ATTEMPTS - n
  {
    if n >= ATTEMPTS then None
    else if Staging(offer, n) in files then FirstFree(files, offer, blocked, n + 1)
    else if n in blocked then None
    else Some(n)
  }

  /** It is the first of sixteen names that no file has, if that one can be opened. */
  lemma {:induction false} FirstFreeExactly(files: Files, offer: Offer, blocked: set<nat>, from: nat, n: nat)
    ensures FirstFree(files, offer, blocked, from) == Some(n) <==>
      && from <= n < 16 && Staging(offer, n) !in files && n !in blocked
      && forall k :: from <= k < n ==> Staging(offer, k) in files
    decreases ATTEMPTS - from
  {
    hide Staging;
    if from < ATTEMPTS && Staging(offer, from) in files {
      FirstFreeExactly(files, offer, blocked, from + 1, n);
    }
  }

  /** What a failed install leaves: nothing, or the staged file if it could not be removed. */
  ghost predicate LeftBehind(offer: Offer, removes: bool, before: Files, now: Files) {
    now == before || (!removes && exists n: nat :: StagedAt(offer, n, before, now))
  }

  predicate StagedAt(offer: Offer, n: nat, before: Files, now: Files) {
    n < ATTEMPTS && Staging(offer, n) !in before && Grown(before, now, Staging(offer, n), MAX_BINARY)
  }

  lemma StagedIsSafe(digest: Digest, channel: Channel, offer: Offer, n: nat, before: Files, now: Files)
    requires StagedAt(offer, n, before, now)
    ensures Safe(digest, channel, offer, before, now)
  {
    hide Staging, Destination, Genuine;
    StagingIsElsewhere(offer, n);
  }

  /** `Staged`: a file beside the destination, removed again unless it is committed. */
  class Staged {
    const disk: Disk
    const path: string
    var committed: bool

    constructor (disk: Disk, path: string)
      ensures this.disk == disk && this.path == path && !committed
    {
      this.disk, this.path, committed := disk, path, false;
    }

    /** `drop`. */
    method Drop(removes: bool)
      modifies disk
      ensures old(disk.past) <= disk.past <= old(disk.past) + [disk.files]
      ensures disk.files == if !committed && removes then old(disk.files) - {path} else old(disk.files)
    {
      if !committed && removes {
        disk.Remove(path);
      }
    }
  }

  /** `Staged::create`: the first free name, opened exclusively. */
  method CreateStaged(disk: Disk, offer: Offer, host: Host) returns (staged: Staged?, ghost n: nat)
    modifies disk
    ensures staged != null <==> FirstFree(old(disk.files), offer, host.blocked, 0).Some? && host.permits
    ensures staged != null ==> fresh(staged) && staged.disk == disk && !staged.committed
    ensures staged != null ==> n < ATTEMPTS && staged.path == Staging(offer, n) && staged.path !in old(disk.files)
    ensures staged != null ==> disk.files == old(disk.files)[staged.path := ""]
    ensures staged == null ==> LeftBehind(offer, host.removes, old(disk.files), disk.files)
    ensures staged == null ==>
      (disk.files == old(disk.files) <==> host.removes || FirstFree(old(disk.files), offer, host.blocked, 0).None?)
    ensures old(disk.past) <= disk.past
    ensures forall k :: |old(disk.past)| <= k < |disk.past| ==> disk.past[k] == old(disk.files) || StagedAt(offer, n,
        old(disk.files), disk.past[k])
  {
    hide Staging;
    staged, n := null, 0;
    var attempt := 0;
    while attempt < ATTEMPTS
      invariant 0 <= attempt <= ATTEMPTS && disk.files == old(disk.files) && disk.past == old(disk.past)
      invariant FirstFree(disk.files, offer, host.blocked, 0) == FirstFree(disk.files, offer, host.blocked, attempt)
    {
      var path := Staging(offer, attempt);
      if path !in disk.files {
        if attempt in host.blocked {
          return;
        }
        n := attempt;
        disk.Create(path);
        assert StagedAt(offer, n, old(disk.files), disk.files);
        var s := new Staged(disk, path);
        if host.permits {
          staged := s;
        } else {
          s.Drop(host.removes);
        }
        return;
      }
      attempt := attempt + 1;
    }
  }

  // ---------------------------------------------------------- installing

  /** Everything up to and including the rename goes well. */
  ghost predicate Succeeds(digest: Digest, channel: Channel, offer: Offer, host: Host, files: Files) {
    var binary := Received(channel.binary, MAX_BINARY);
    && host.ready && FirstFree(files, offer, host.blocked, 0).Some? && host.permits
    && binary.Some? && Fits(host.room, |binary.value|)
    && Genuine(digest, channel, offer, binary.value)
    && host.syncs && host.readsBack && host.signed && host.renames
  }

  /** What each result says went wrong. */
  ghost predicate Reports(r: Result, digest: Digest, channel: Channel, offer: Offer, host: Host, files: Files) {
    var binary := Received(channel.binary, MAX_BINARY);
    match r
    case Installed => host.durable
    case NotReady => !host.ready
    case NoChecksum => Expected(channel, offer.asset).None?
    case NotStaged => FirstFree(files, offer, host.blocked, 0).None? || !host.permits
    case NotDownloaded => binary.None? || !Fits(host.room, |binary.value|)
    case WrongDigest => binary.Some? && Expected(channel, offer.asset) != Some(digest(binary.value))
    case NotPersisted => !host.syncs
    case NotExecutable =>
      || !host.readsBack || !host.signed
      || (binary.Some? && !HeaderPasses(Head(binary.value), offer.os, offer.arch))
    case NotRenamed => !host.renames
    case NotDurable => !host.durable
  }

  /** The install gets as far as creating a staged file. */
  predicate Stages(channel: Channel, offer: Offer, host: Host, files: Files) {
    host.ready && Expected(channel, offer.asset).Some? && FirstFree(files, offer, host.blocked, 0).Some?
  }

  /** `commit`: the rename makes the file visible; then its directory entry is persisted. */
  method Commit(staged: Staged, offer: Offer, host: Host) returns (r: Result)
    requires staged.path in staged.disk.files
    modifies staged, staged.disk
    ensures r == if !host.renames then NotRenamed else if !host.durable then NotDurable else Installed
    ensures staged.committed <==> host.renames || old(staged.committed)
    ensures !host.renames ==> staged.disk.files == old(staged.disk.files) && staged.disk.past == old(staged.disk.past)
    ensures host.renames ==>
      && staged.disk.files ==
           (old(staged.disk.files) - {staged.path})[Destination(offer) := old(staged.disk.files)[staged.path]]
      && staged.disk.past == old(staged.disk.past) + [staged.disk.files]
  {
    if !host.renames {
      return NotRenamed;
    }
    staged.disk.Rename(staged.path, Destination(offer));
    staged.committed := true;
    r := if host.durable then Installed else NotDurable;
  }

  /** The download into a staged file, its verification and the commit. */
  method Deliver(digest: Digest, channel: Channel, offer: Offer, host: Host, staged: Staged,
                 expected: seq<Byte>) returns (r: Result)
    requires !staged.committed && staged.path in staged.disk.files && staged.disk.files[staged.path] == ""
    requires Expected(channel, offer.asset) == Some(expected) && staged.path != Destination(offer)
    modifies staged, staged.disk
    ensures
      var binary := Received(channel.binary, MAX_BINARY);
      staged.committed <==>
        && binary.Some? && Fits(host.room, |binary.value|) && Genuine(digest, channel, offer, binary.value)
        && host.syncs && host.readsBack && host.signed && host.renames
    ensures staged.committed <==> r == Installed || r == NotDurable
    ensures !r.NotReady? && !r.NoChecksum? && !r.NotStaged? && Reports(r, digest, channel, offer, host, map[])
    ensures staged.committed ==>
      staged.disk.files == (old(staged.disk.files) - {staged.path})[Destination(offer) := Received(channel.binary,
          MAX_BINARY).value]
    ensures !staged.committed ==> Grown(old(staged.disk.files), staged.disk.files, staged.path, MAX_BINARY)
    ensures old(staged.disk.past) <= staged.disk.past
    ensures forall k :: |old(staged.disk.past)| <= k < |staged.disk.past| ==>
      || Grown(old(staged.disk.files), staged.disk.past[k], staged.path, MAX_BINARY)
      || (staged.committed && staged.disk.past[k] == staged.disk.files)
  {
    hide Received, Checksum, HeaderPasses, Destination;
    var disk := staged.disk;
    var ok, body := Stream(channel.binary, MAX_BINARY, disk, Some(staged.path), host.room);
    if !ok {
      return NotDownloaded;
    }
    if digest(body) != expected {
      return WrongDigest;
    }
    if !host.syncs {
      return NotPersisted;
    }
    if !host.readsBack || !HeaderPasses(Head(disk.files[staged.path]), offer.os, offer.arch) || !host.signed {
      return NotExecutable;
    }
    r := Commit(staged, offer, host);
  }

  lemma GrownFromNew(before: Files, now: Files, path: string)
    requires Grown(before[path := ""], now, path, MAX_BINARY)
    ensures Grown(before, now, path, MAX_BINARY)
  {
    assert before[path := ""][path := now[path]] == before[path := now[path]];
  }

  lemma InstalledIsSafe(digest: Digest, channel: Channel, offer: Offer, before: Files, bytes: string)
    requires Genuine(digest, channel, offer, bytes)
    ensures Safe(digest, channel, offer, before, before[Destination(offer) := bytes])
  {
    hide Genuine, Destination;
  }

  lemma UntouchedIsSafe(digest: Digest, channel: Channel, offer: Offer, before: Files)
    ensures Safe(digest, channel, offer, before, before)
  {
    hide Genuine, Destination;
  }

  lemma LeftBehindIsSafe(digest: Digest, channel: Channel, offer: Offer, removes: bool, before: Files, now: Files)
    requires LeftBehind(offer, removes, before, now)
    ensures Safe(digest, channel, offer, before, now)
  {
    hide Safe, StagedAt;
    UntouchedIsSafe(digest, channel, offer, before);
    if now != before {
      var n: nat :| StagedAt(offer, n, before, now);
      StagedIsSafe(digest, channel, offer, n, before, now);
    }
  }

  lemma StagingRemoved(before: Files, now: Files, path: string, destination: string, bytes: string)
    requires path !in before && path != destination
    ensures (before[path := ""] - {path})[destination := bytes] == before[destination := bytes]
    ensures Grown(before, now, path, MAX_BINARY) ==> now - {path} == before
  {
    assert before[path := ""] - {path} == before;
  }

  /** `install_from`. For every download and every failure: it reports success exactly when
      every step went well, and then the destination holds the verified download and
      nothing else changed; otherwise the files are as before, but for a staged file that
      could not be removed, which is there exactly when one was created and its removal
      fails. The result names what went wrong; a directory that cannot be synced is reported
      after the new file is in place. At every moment in between the destination was as before or genuine. */
  method InstallFrom(digest: Digest, channel: Channel, offer: Offer, host: Host, disk: Disk) returns (r: Result)
    modifies disk
    ensures r == Installed <==> Succeeds(digest, channel, offer, host, old(disk.files)) && host.durable
    ensures r == NotDurable <==> Succeeds(digest, channel, offer, host, old(disk.files)) && !host.durable
    ensures Succeeds(digest, channel, offer, host, old(disk.files)) ==>
      disk.files == old(disk.files)[Destination(offer) := Received(channel.binary, MAX_BINARY).value]
    ensures !Succeeds(digest, channel, offer, host, old(disk.files)) ==>
      && LeftBehind(offer, host.removes, old(disk.files), disk.files)
      && (disk.files == old(disk.files) <==> host.removes || !Stages(channel, offer, host, old(disk.files)))
    ensures Reports(r, digest, channel, offer, host, old(disk.files))
    ensures Safe(digest, channel, offer, old(disk.files), disk.files)
    ensures old(disk.past) <= disk.past && AllSafe(digest, channel, offer, old(disk.files), disk.past, |old(disk.past)|)
  {
    hide Safe, Received, Checksum, Staging, Destination, HeaderPasses, FirstFree;
    ghost var before := disk.files;
    UntouchedIsSafe(digest, channel, offer, before);
    if !host.ready {
      return NotReady;
    }
    var ok, text := Stream(channel.sidecar, MAX_CHECKSUM, disk, None, None);
    if !ok {
      return NoChecksum;
    }
    var expected := ParseChecksum(text, offer.asset);
    if expected.None? {
      return NoChecksum;
    }
    var staged, n := CreateStaged(disk, offer, host);
    forall k | |old(disk.past)| <= k < |disk.past| ensures Safe(digest, channel, offer, before, disk.past[k]) {
      if disk.past[k] != before {
        StagedIsSafe(digest, channel, offer, n, before, disk.past[k]);
      }
    }
    if staged == null {
      LeftBehindIsSafe(digest, channel, offer, host.removes, before, disk.files);
      return NotStaged;
    }
    r := Finish(digest, channel, offer, host, staged, expected.value, before, n);
  }

  /** The rest of an install once a file is staged, dropped at the end. */
  method Finish(digest: Digest, channel: Channel, offer: Offer, host: Host, staged: Staged, expected: seq<Byte>,
                ghost before: Files, ghost n: nat) returns (r: Result)
    requires !staged.committed && Expected(channel, offer.asset) == Some(expected)
    requires n < ATTEMPTS && staged.path == Staging(offer, n) && staged.path !in before
    requires staged.disk.files == before[staged.path := ""]
    modifies staged, staged.disk
    ensures !r.NotReady? && !r.NoChecksum? && !r.NotStaged? && Reports(r, digest, channel, offer, host, map[])
    ensures
      var binary := Received(channel.binary, MAX_BINARY);
      var good :=
        && binary.Some? && Fits(host.room, |binary.value|) && Genuine(digest, channel, offer, binary.value)
        && host.syncs && host.readsBack && host.signed && host.renames;
      && (r == Installed <==> good && host.durable) && (r == NotDurable <==> good && !host.durable)
      && (good ==> staged.disk.files == before[Destination(offer) := binary.value])
      && (!good ==> LeftBehind(offer, host.removes, before, staged.disk.files))
      && (!good ==> (staged.disk.files == before <==> host.removes))
    ensures Safe(digest, channel, offer, before, staged.disk.files)
    ensures old(staged.disk.past) <= staged.disk.past
    ensures AllSafe(digest, channel, offer, before, staged.disk.past, |old(staged.disk.past)|)
  {
    hide Safe, Received, Staging, Destination, HeaderPasses, Expected;
    var disk := staged.disk;
    StagingIsElsewhere(offer, n);
    r := Deliver(digest, channel, offer, host, staged, expected);
    ghost var delivered := disk.files;
    if staged.committed {
      var bytes := Received(channel.binary, MAX_BINARY).value;
      StagingRemoved(before, delivered, staged.path, Destination(offer), bytes);
      InstalledIsSafe(digest, channel, offer, before, bytes);
    } else {
      GrownFromNew(before, delivered, staged.path);
      StagingRemoved(before, delivered, staged.path, Destination(offer), "");
      assert StagedAt(offer, n, before, delivered);
    }
    forall k | |old(disk.past)| <= k < |disk.past| ensures Safe(digest, channel, offer, before, disk.past[k]) {
      if Grown(before[staged.path := ""], disk.past[k], staged.path, MAX_BINARY) {
        GrownFromNew(before, disk.past[k], staged.path);
        StagedIsSafe(digest, channel, offer, n, before, disk.past[k]);
      }
    }
    staged.Drop(host.removes);
    UntouchedIsSafe(digest, channel, offer, before);
    if !staged.committed {
      LeftBehindIsSafe(digest, channel, offer, host.removes, before, disk.files);
    }
  }

  // ---------------------------------------------------------- a failure that leaves a file

  const ASSET := "gantry-linux-amd64"
  const HERE := Offer(ASSET, "/home/user/.gantry/bin", "1-0", "linux", "x86_64")

  /** A host on which everything works but removing a file. */
  const STUCK := Host(true, {}, true, None, true, true, true, true, true, false)

  /** A release that publishes a checksum and no binary. */
  function Unpublished(): Channel {
    Channel(Body(None, [Chunk(Written(Hex(seq(SIZE, _ => 0)), true, false, ASSET))]), Refused)
  }

  lemma UnpublishedStages()
    ensures Stages(Unpublished(), HERE, STUCK, map[])
  {
    var zeros: seq<Byte> := seq(SIZE, _ => 0);
    var text := Written(Hex(zeros), true, false, ASSET);
    assert ASSET[0] == 'g' && NoSpaces(ASSET);
    SidecarReadsBack(Hex(zeros), true, false, ASSET, ASSET);
    hide Checksum, Hex, Written;
    WholeOfOne(text);
    assert |text| <= MAX_CHECKSUM by { WrittenLength(Hex(zeros)); }
  }

  lemma WholeOfOne(text: string)
    requires text != ""
    ensures Whole([Chunk(text)]) == Some(text)
  {
    assert text + "" == text;
    assert [Chunk(text)][1..] == [];
  }

  lemma WrittenLength(digest: string)
    requires |digest| == 64
    ensures 0 < |Written(digest, true, false, ASSET)| <= MAX_CHECKSUM
  {
  }

  /** Such a release on such a host: the install fails and its staged file stays. */
  method LeaveAFileBehind(digest: Digest, disk: Disk) returns (r: Result)
    requires disk.files == map[]
    modifies disk
    ensures r != Installed && r != NotDurable
    ensures exists n: nat :: StagedAt(HERE, n, map[], disk.files)
  {
    hide StagedAt, Safe, AllSafe;
    UnpublishedStages();
    r := InstallFrom(digest, Unpublished(), HERE, STUCK, disk);
  }

  // ---------------------------------------------------------- an install that succeeds

  /** A host on which everything works. */
  const WORKING := STUCK.(removes := true)

  /** A small executable for that host. */
  function Release(): string {
    Executable(LinuxAmd64, "0123456789", 2, "")
  }

  /** A release that publishes it with its checksum. */
  function Published(digest: Digest): Channel {
    var checksum := Written(Hex(digest(Release())), true, false, ASSET);
    Channel(Body(None, [Chunk(checksum)]), Body(Some(20), [Chunk(Release())]))
  }

  lemma PublishedSucceeds(digest: Digest)
    requires |digest(Release())| == SIZE
    ensures Succeeds(digest, Published(digest), HERE, WORKING, map[])
    ensures Received(Published(digest).binary, MAX_BINARY) == Some(Release())
  {
    var release := Release();
    var sum := digest(release);
    assert ASSET[0] == 'g' && NoSpaces(ASSET);
    SidecarReadsBack(Hex(sum), true, false, ASSET, ASSET);
    HexReadsBack(sum);
    ExecutablePasses(LinuxAmd64, "0123456789", 2, "", "linux", "x86_64");
    assert |release| == 20;
    WrittenLength(Hex(sum));
    hide Checksum, Hex, Written, HeaderPasses, Executable;
    WholeOfOne(Written(Hex(sum), true, false, ASSET));
    WholeOfOne(release);
  }

  /** An x86-64 release on a working x86-64 Linux host is installed, and nothing else. */
  method InstallHere(digest: Digest, disk: Disk) returns (r: Result)
    requires disk.files == map[] && |digest(Release())| == SIZE
    modifies disk
    ensures r == Installed && disk.files == map[Destination(HERE) := Release()]
  {
    hide Succeeds, Safe, AllSafe;
    PublishedSucceeds(digest);
    r := InstallFrom(digest, Published(digest), HERE, WORKING, disk);
  }
}
