// internal/updater: download, verify, back up, rename, restart, probe, roll back.
//
// The disk records every state it ever passes through, so a claim about all
// recorded states is a claim about a crash at any point. Which calls fail is a
// parameter; how much a failing write leaves behind is not.
module Updater {
  import opened Text
  import PeerList
  import Semver

  // ---- backup names -------------------------------------------------------

  // A broken-down UTC time, to the millisecond.
  datatype Instant = Instant(year: nat, month: nat, day: nat, hour: nat, minute: nat, second: nat, milli: nat) {
    predicate Valid() {
      year <= 9999 && month <= 12 && day <= 31 && hour <= 23 && minute <= 59 && second <= 60 && milli <= 999
    }

    predicate Earlier(o: Instant) {
      if year != o.year then year < o.year
      else if month != o.month then month < o.month
      else if day != o.day then day < o.day
      else if hour != o.hour then hour < o.hour
      else if minute != o.minute then minute < o.minute
      else if second != o.second then second < o.second
      else milli < o.milli
    }

    // Format("20060102T150405.000")
    function Stamp(): string {
      Pad(year, 4) + (Pad(month, 2) + (Pad(day, 2) + ("T" +
        (Pad(hour, 2) + (Pad(minute, 2) + (Pad(second, 2) + ("." + Pad(milli, 3))))))))
    }
  }

  // One fixed-width field in front.
  lemma FieldOrder(a: nat, b: nat, w: nat, x: string, y: string)
    requires a < Pow10(w) && b < Pow10(w)
    ensures Less(Pad(a, w) + x, Pad(b, w) + y) <==> a < b || (a == b && Less(x, y))
    ensures Pad(a, w) + x == Pad(b, w) + y ==> a == b && x == y
  {
    PadOrder(a, b, w);
    LessConcat(Pad(a, w), x, Pad(b, w), y);
    if Pad(a, w) + x == Pad(b, w) + y {
      assert Pad(a, w) == (Pad(a, w) + x)[..w] == (Pad(b, w) + y)[..w] == Pad(b, w);
      assert x == (Pad(a, w) + x)[w..] == (Pad(b, w) + y)[w..] == y;
    }
  }

  // Byte order of the names is the order of the times.
  lemma StampOrder(a: Instant, b: Instant)
    requires a.Valid() && b.Valid()
    ensures Less(a.Stamp(), b.Stamp()) <==> a.Earlier(b)
    ensures a.Stamp() == b.Stamp() ==> a == b
  {
    assert Pow10(2) == 100 && Pow10(3) == 1000 && Pow10(4) == 10000;
    hide Pad, Less, Pow10;
    var a1, b1 := "." + Pad(a.milli, 3), "." + Pad(b.milli, 3);
    var a2, b2 := Pad(a.second, 2) + a1, Pad(b.second, 2) + b1;
    var a3, b3 := Pad(a.minute, 2) + a2, Pad(b.minute, 2) + b2;
    var a4, b4 := Pad(a.hour, 2) + a3, Pad(b.hour, 2) + b3;
    var a5, b5 := "T" + a4, "T" + b4;
    var a6, b6 := Pad(a.day, 2) + a5, Pad(b.day, 2) + b5;
    var a7, b7 := Pad(a.month, 2) + a6, Pad(b.month, 2) + b6;
    PadOrder(a.milli, b.milli, 3);
    LessCommonPrefix(".", Pad(a.milli, 3), Pad(b.milli, 3));
    assert a1 == b1 ==> a1[1..] == b1[1..];
    FieldOrder(a.second, b.second, 2, a1, b1);
    FieldOrder(a.minute, b.minute, 2, a2, b2);
    FieldOrder(a.hour, b.hour, 2, a3, b3);
    LessCommonPrefix("T", a4, b4);
    assert a5 == b5 ==> a5[1..] == b5[1..];
    FieldOrder(a.day, b.day, 2, a5, b5);
    FieldOrder(a.month, b.month, 2, a6, b6);
    FieldOrder(a.year, b.year, 4, a7, b7);
  }

  // ---- the disk -----------------------------------------------------------

  // CurrentBin, wgserver.new, wgserver.bak.<name>, and CreateTemp files.
  datatype Path = Binary | Staged | Backup(name: string) | Temp(n: nat)

  type Files = map<Path, string>

  function Get(fs: Files, p: Path): Option<string> { if p in fs then Some(fs[p]) else None }

  // The file a rollback copies back: greatest backup name.
  ghost predicate IsLatest(fs: Files, name: string) {
    Backup(name) in fs && forall m | Backup(m) in fs :: !Less(name, m)
  }

  datatype Download = Verified | NotStarted | CopyFailed | CloseFailed | HashFailed | SidecarFailed | Mismatch

  // Which calls of one download succeed: the request and Create, io.Copy, Close,
  // hashing the file, fetching the sidecar, and the Remove after a failure.
  datatype Fetch = Fetch(starts: bool, copies: bool, closes: bool, hashes: bool, sidecar: bool, removes: bool) {
    predicate AllWork() { starts && copies && closes && hashes && sidecar && removes }
  }

  // Which calls of one copyFile succeed: the two opens, io.Copy, Close.
  datatype CopyCalls = CopyCalls(opens: bool, copies: bool, closes: bool) {
    predicate AllWork() { opens && copies && closes }
  }

  // Which calls of one swap succeed: CreateTemp, its Close, the copy, the rename, the
  // Remove of the temporary file.
  datatype SwapCalls = SwapCalls(temp: bool, close: bool, copy: CopyCalls, rename: bool, unlink: bool) {
    predicate AllWork() { temp && close && copy.AllWork() && rename && unlink }
  }

  // And of one whole Check.
  datatype Calls = Calls(backupDir: bool, fetch: Fetch, chmod: bool, mkdir: bool, backup: CopyCalls, install: SwapCalls,
    restart: bool, rollback: SwapCalls, restartBack: bool)
  {
    predicate AllWork() {
      backupDir && fetch.AllWork() && chmod && mkdir && backup.AllWork() && install.AllWork() && restart
      && rollback.AllWork() && restartBack
    }
  }

  datatype Stage = Release | BackupDir | Downloading | Chmod | Installing | Restarting | RollingBack | SecondRestart

  datatype Outcome = Skipped | NoUpdate | Updated | RolledBack | Failed(stage: Stage)

  // ---- health check -------------------------------------------------------

  datatype Probe = Cancelled | BadRequest | NetError | Status(code: int) | CancelledWaiting(code: int)

  // The attempt ends the loop: cancelled before, not even a request, or cancelled while waiting.
  predicate EndsLoop(p: Probe) { p.Cancelled? || p.BadRequest? || (p.CancelledWaiting? && p.code != 200) }

  predicate Healthy(p: Probe) { (p.Status? || p.CancelledWaiting?) && p.code == 200 }

  // Some attempt is answered 200 before the context is cancelled, which the loop
  // notices before an attempt or while it waits after one, or a request cannot be made.
  ghost predicate ComesUp(attempts: int, probe: int -> Probe) {
    exists i :: 0 <= i < attempts
                && (probe(i) == Status(200) || probe(i) == CancelledWaiting(200))
                && forall k | 0 <= k < i :: probe(k).Status? || probe(k).NetError?
  }

  method HealthCheck(attempts: int, probe: int -> Probe) returns (ok: bool)
    ensures ok <==> ComesUp(attempts, probe)
  {
    var i := 0;
    while i < attempts
      invariant 0 <= i
      invariant forall k | 0 <= k < i :: !EndsLoop(probe(k)) && !Healthy(probe(k))
    {
      var p := probe(i);
      if p.Cancelled? || p.BadRequest? {
        return false;
      }
      if Healthy(p) {
        assert p == Status(200) || p == CancelledWaiting(200);
        return true;
      }
      if p.CancelledWaiting? {
        return false;
      }
      i := i + 1;
    }
    ok := false;
  }

  // ---- the code -----------------------------------------------------------

  // fs differs from base at most at the paths of ps.
  ghost predicate SameBut(fs: Files, base: Files, ps: set<Path>) {
    forall p | p !in ps :: Get(fs, p) == Get(base, p)
  }

  ghost predicate AllSameBut(history: seq<Files>, start: nat, base: Files, ps: set<Path>) {
    forall i | start <= i < |history| :: SameBut(history[i], base, ps)
  }

  // fs differs from base at most in temporary files.
  ghost predicate SameButTemps(fs: Files, base: Files) {
    forall p: Path | !p.Temp? :: Get(fs, p) == Get(base, p)
  }

  // A moment of a swap: the binary is the old file or all of the new one, and
  // nothing but temporary files is touched besides.
  ghost predicate MidSwap(fs: Files, base: Files, image: Option<string>) {
    && (forall p: Path | p.Staged? || p.Backup? :: Get(fs, p) == Get(base, p))
    && (Get(fs, Binary) == Get(base, Binary) || Get(fs, Binary) == image)
  }

  // A moment of an install: the binary is the old file or, once the old one is
  // completely backed up, all of the new one; no other backup is touched.
  ghost predicate MidInstall(fs: Files, base: Files, image: Option<string>, stamp: string, seen: bool) {
    && (forall n | !(seen && n == stamp) :: Get(fs, Backup(n)) == Get(base, Backup(n)))
    && (Get(fs, Binary) == Get(base, Binary)
        || (Get(fs, Binary) == image && (seen ==> Get(fs, Backup(stamp)) == Get(base, Binary))))
  }

  class Disk {
    var files: Files
    var history: seq<Files>

    ghost predicate Valid()
      reads this
    {
      history != [] && history[|history| - 1] == files
    }

    constructor (files: Files)
      ensures Valid() && this.files == files
    {
      this.files, this.history := files, [files];
    }

    // One change of the directory, visible at once and as a whole.
    method Set(fs: Files)
      modifies this
      ensures files == fs && history == old(history) + [fs]
    {
      files := fs;
      history := history + [fs];
    }

    // Everything stops once the directory has gone through k states; what came
    // later has not happened.
    method Crash(k: nat)
      requires Valid() && 0 < k <= |history|
      modifies this
      ensures Valid() && history == old(history)[..k]
    {
      files, history := history[k - 1], history[..k];
    }

    method Remove(p: Path, works: bool)
      requires Valid()
      modifies this
      ensures Valid() && old(history) <= history
      ensures files == if works then old(files) - {p} else old(files)
      ensures AllSameBut(history, |old(history)|, old(files), {p})
    {
      if works {
        Set(files - {p});
      }
    }

    // rename(2)
    method Rename(a: Path, b: Path, works: bool)
      requires Valid() && a in files && a != b
      modifies this
      ensures Valid() && old(history) <= history
      ensures files == if works then (old(files) - {a})[b := old(files)[a]] else old(files)
      ensures forall i | |old(history)| <= i < |history| :: history[i] == files
    {
      if works {
        Set((files - {a})[b := files[a]]);
      }
    }

    // Stream `data` into an open, truncated dst; a failure may come after any number of bytes.
    method Write(dst: Path, data: string, works: bool)
      requires Valid() && dst in files && files[dst] == ""
      modifies this
      ensures Valid() && old(history) <= history && dst in files && (works ==> files[dst] == data)
      ensures AllSameBut(history, |old(history)|, old(files), {dst}) && SameBut(files, old(files), {dst})
    {
      var n := 0;
      while n < |data|
        invariant n <= |data| && Valid() && old(history) <= history
        invariant files == old(files)[dst := data[..n]]
        invariant AllSameBut(history, |old(history)|, old(files), {dst})
      {
        if !works {
          if * {
            return;
          }
        }
        var k :| n < k <= |data|;
        Set(files[dst := data[..k]]);
        n := k;
      }
      assert data[..n] == data;
    }

    method CopyFile(src: Path, dst: Path, calls: CopyCalls) returns (ok: bool)
      requires Valid() && src != dst
      modifies this
      ensures Valid() && old(history) <= history
      ensures ok <==> src in old(files) && calls.opens && calls.copies && calls.closes
      ensures ok ==> dst in files && files[dst] == old(files)[src]
      ensures AllSameBut(history, |old(history)|, old(files), {dst}) && SameBut(files, old(files), {dst})
      ensures dst in old(files) ==> dst in files
    {
      if src !in files || !calls.opens {
        return false;
      }
      var data := files[src];
      Set(files[dst := ""]);
      Write(dst, data, calls.copies);
      if !calls.copies {
        return false;
      }
      ok := calls.closes;
    }

    // os.CreateTemp: names are tried until one is free.
    method CreateTemp(works: bool) returns (tmp: Option<Path>)
      requires Valid()
      modifies this
      ensures Valid() && old(history) <= history && (tmp.Some? <==> works)
      ensures tmp.None? ==> files == old(files) && history == old(history)
      ensures tmp.Some? ==> tmp.value.Temp? && tmp.value !in old(files) && files == old(files)[tmp.value := ""]
      ensures tmp.Some? ==> history == old(history) + [files]
    {
      var n: nat := 0;
      ghost var left := files.Keys;
      while Temp(n) in files
        invariant left <= files.Keys && forall k: nat | k >= n && Temp(k) in files :: Temp(k) in left
        decreases |left|
      {
        left := left - {Temp(n)};
        n := n + 1;
      }
      if !works {
        return None;
      }
      Set(files[Temp(n) := ""]);
      tmp := Some(Temp(n));
    }

    // filepath.Glob(BackupDir/wgserver.bak.*): complete and sorted.
    method GlobBackups() returns (names: seq<string>)
      ensures Sorted(names) && forall n :: n in names <==> Backup(n) in files
    {
      names := [];
      var rest := files.Keys;
      while rest != {}
        invariant rest <= files.Keys && Sorted(names)
        invariant forall n :: n in names <==> Backup(n) in files && Backup(n) !in rest
        decreases |rest|
      {
        var p :| p in rest;
        rest := rest - {p};
        if p.Backup? {
          InsertNameSorts(names, p.name);
          names := InsertName(names, p.name);
        }
      }
    }

    // Copy src into a temporary sibling of the binary; on failure the sibling is
    // removed, best-effort.
    method FillTemp(src: Path, closeMatters: bool, calls: SwapCalls) returns (tmp: Option<Path>)
      requires Valid() && src in files && !src.Temp?
      modifies this
      ensures Valid() && old(history) <= history
      ensures forall i | |old(history)| <= i < |history| :: SameButTemps(history[i], old(files))
      ensures SameButTemps(files, old(files))
      ensures tmp.Some? <==> calls.temp && (closeMatters ==> calls.close)
                             && calls.copy.opens && calls.copy.copies && calls.copy.closes
      ensures tmp.Some? ==> tmp.value.Temp? && tmp.value in files && files[tmp.value] == old(files)[src]
    {
      tmp := CreateTemp(calls.temp);
      if tmp.None? {
        return;
      }
      if closeMatters && !calls.close {
        Remove(tmp.value, calls.unlink);
        return None;
      }
      var copied := CopyFile(src, tmp.value, calls.copy);
      if !copied {
        Remove(tmp.value, calls.unlink);
        return None;
      }
    }

    // Rename a filled temporary sibling over the binary; the deferred Remove finds
    // nothing after a successful rename.
    method Swap(src: Path, closeMatters: bool, calls: SwapCalls) returns (ok: bool)
      requires Valid() && src in files && (src.Staged? || src.Backup?)
      modifies this
      ensures Valid() && old(history) <= history
      ensures forall i | |old(history)| <= i < |history| :: MidSwap(history[i], old(files), Get(old(files), src))
      ensures MidSwap(files, old(files), Get(old(files), src))
      ensures ok <==> calls.temp && (closeMatters ==> calls.close)
                      && calls.copy.opens && calls.copy.copies && calls.copy.closes && calls.rename
      ensures Get(files, Binary) == Get(old(files), if ok then src else Binary)
    {
      var tmp := FillTemp(src, closeMatters, calls);
      if tmp.None? {
        return false;
      }
      ghost var filled, h1 := files, history;
      Rename(tmp.value, Binary, calls.rename);
      ok := calls.rename;
      ghost var renamed := files;
      assert MidSwap(renamed, old(files), Get(old(files), src));
      hide MidSwap, SameButTemps;
      Remove(tmp.value, calls.unlink);
    }

    // install: back up, then swap. `seen` is whether os.Stat finds the binary;
    // if it does not, there is no backup.
    method Install(src: Path, stamp: string, seen: bool, calls: Calls) returns (ok: bool)
      requires Valid() && src in files && src.Staged? && (seen ==> Binary in files)
      modifies this
      ensures Valid() && old(history) <= history
      ensures forall i | |old(history)| <= i < |history| ::
                MidInstall(history[i], old(files), Get(old(files), src), stamp, seen)
      ensures MidInstall(files, old(files), Get(old(files), src), stamp, seen)
      ensures ok <==> calls.mkdir && (seen ==> calls.backup.opens && calls.backup.copies && calls.backup.closes)
                      && calls.install.temp && calls.install.close && calls.install.copy.opens
                      && calls.install.copy.copies && calls.install.copy.closes && calls.install.rename
      ensures Get(files, Binary) == Get(old(files), if ok then src else Binary)
      ensures ok && seen ==> Get(files, Backup(stamp)) == Get(old(files), Binary)
    {
      if !calls.mkdir {
        return false;
      }
      ghost var orig, image, h0 := files, Get(files, src), history;
      if seen {
        var saved := CopyFile(Binary, Backup(stamp), calls.backup);
        BackingUp(history, |h0|, orig, image, stamp);
        BackingUp([files], 0, orig, image, stamp);
        if !saved {
          return false;
        }
      }
      ghost var mid, h1 := files, history;
      assert SameBut(mid, orig, if seen then {Backup(stamp)} else {});
      ok := Swap(src, true, calls.install);
      forall fs | MidSwap(fs, mid, image) ensures MidInstall(fs, orig, image, stamp, seen) {
        SwapWithinInstall(fs, mid, orig, image, stamp, seen);
      }
      hide MidSwap, MidInstall, SameBut, AllSameBut;
    }

    // rollback: swap in the greatest-named backup.
    method Rollback(calls: SwapCalls) returns (ok: bool, ghost latest: string)
      requires Valid()
      modifies this
      ensures Valid() && old(history) <= history
      ensures ok <==> (exists n :: Backup(n) in old(files)) && calls.temp
                      && calls.copy.opens && calls.copy.copies && calls.copy.closes && calls.rename
      ensures history != old(history) || ok ==> IsLatest(old(files), latest)
      ensures IsLatest(old(files), latest) || (forall n :: Backup(n) !in old(files))
      ensures forall i | |old(history)| <= i < |history| ::
                MidSwap(history[i], old(files), Get(old(files), Backup(latest)))
      ensures Get(files, Binary) == Get(old(files), if ok then Backup(latest) else Binary)
    {
      latest := "";
      var matches := GlobBackups();
      if |matches| == 0 {
        return false, "";
      }
      var last := matches[|matches| - 1];
      latest := last;
      assert IsLatest(files, last) by {
        assert last in matches;
        forall m | Backup(m) in files ensures !Less(last, m) {
          assert m in matches;
          LessTrichotomy(last, last);
        }
      }
      ok := Swap(Backup(last), false, calls);
    }
  }

  lemma BackingUp(history: seq<Files>, start: nat, orig: Files, image: Option<string>, stamp: string)
    requires AllSameBut(history, start, orig, {Backup(stamp)})
    ensures forall i | start <= i < |history| :: MidInstall(history[i], orig, image, stamp, true)
  {
    forall i | start <= i < |history| ensures MidInstall(history[i], orig, image, stamp, true) {
      assert SameBut(history[i], orig, {Backup(stamp)});
    }
  }

  lemma SwapWithinInstall(fs: Files, mid: Files, orig: Files, image: Option<string>, stamp: string, seen: bool)
    requires MidSwap(fs, mid, image) && SameBut(mid, orig, if seen then {Backup(stamp)} else {})
    requires seen ==> Get(mid, Backup(stamp)) == Get(orig, Binary)
    ensures MidInstall(fs, orig, image, stamp, seen)
  {
  }

  // ---- one cycle ----------------------------------------------------------

  // ASCII case folding, for hex digests.
  function Lower(s: string): string {
    if s == [] then []
    else [if 'A' <= s[0] <= 'Z' then ((s[0] as int) + 32) as char else s[0]] + Lower(s[1..])
  }

  // strings.EqualFold on digests.
  predicate EqualFold(a: string, b: string) { Lower(a) == Lower(b) }

  // The same letter, capital or small.
  predicate SameLetter(a: char, b: char) {
    || a == b
    || ('A' <= a <= 'Z' && b as int == a as int + 32)
    || ('A' <= b <= 'Z' && a as int == b as int + 32)
  }

  // Equal up to the case of ASCII letters.
  ghost predicate SameText(a: string, b: string) {
    |a| == |b| && forall i | 0 <= i < |a| :: SameLetter(a[i], b[i])
  }

  lemma {:induction false} EqualFoldMeans(a: string, b: string)
    ensures EqualFold(a, b) <==> SameText(a, b)
  {
    if a != [] && b != [] {
      EqualFoldMeans(a[1..], b[1..]);
      assert Lower(a)[0] == Lower(b)[0] <==> SameLetter(a[0], b[0]);
      assert Lower(a)[1..] == Lower(a[1..]) && Lower(b)[1..] == Lower(b[1..]);
      if EqualFold(a, b) {
        forall i | 0 <= i < |a| ensures SameLetter(a[i], b[i]) {
          assert i > 0 ==> a[i] == a[1..][i - 1] && b[i] == b[1..][i - 1];
        }
      }
      if SameText(a, b) {
        assert forall i | 0 <= i < |a[1..]| :: a[1..][i] == a[i + 1] && b[1..][i] == b[i + 1];
        assert Lower(a) == [Lower(a)[0]] + Lower(a[1..]) && Lower(b) == [Lower(b)[0]] + Lower(b[1..]);
      }
    }
  }

  // The digest in a sidecar: up to the first blank, trimmed, 64 characters long.
  function SidecarDigest(text: string): Option<string> {
    var token := PeerList.TrimSpace(Before(text, ' '));
    if |token| == 64 then Some(token) else None
  }

  // From sha256sum's own format, digest, blank and rest, it is read back, and a
  // digest of another length is refused.
  lemma SidecarRead(digest: string, rest: string)
    requires PeerList.Clean(digest)
    ensures SidecarDigest(digest + " " + rest) == if |digest| == 64 then Some(digest) else None
    ensures SidecarDigest(digest + "\n") == if |digest| == 64 then Some(digest) else None
  {
    assert forall c | c in digest :: !PeerList.IsSpace(c);
    SplitHead(digest, rest, ' ');
    var line := PeerList.Line("", digest, "");
    assert line.Text() == digest && line.Valid();
    PeerList.TrimLine(line);
    SplitHead(digest + "\n", [], ' ');
    PeerList.TrimRightSpaces(digest, "\n");
    assert PeerList.TrimLeft(digest + "\n") == digest + "\n" && PeerList.TrimLeft(digest) == digest;
  }

  // The download is what the sidecar vouches for.
  ghost predicate Verifies(sha: string -> string, body: string, sidecar: string) {
    SidecarDigest(sidecar).Some? && SameText(sha(body), SidecarDigest(sidecar).value)
  }

  // What the outside world answers during one Check. tag is None when there is no
  // usable release; body and sidecar are what the download delivers; runs is
  // whether `wgserver version` works; calls is which of Check's own calls work.
  datatype World = World(
    pinned: string, runs: bool, currentVer: string, tag: Option<string>, hasAsset: bool,
    body: string, sidecar: string, calls: Calls, now: Instant, seen: bool, attempts: int, probe: int -> Probe)

  // The backups as rollback will find them.
  function WithBackup(fs: Files, stamp: string, seen: bool): Files {
    if seen && Binary in fs then fs[Backup(stamp) := fs[Binary]] else fs
  }

  // No backup is named later than this cycle's.
  ghost predicate ClockPast(fs: Files, stamp: string) { forall m | Backup(m) in fs :: !Less(stamp, m) }

  // Rolling back restores the binary: there will be a backup of it with the
  // greatest name, or the greatest backup there is already holds the same bytes.
  ghost predicate Restorable(fs: Files, stamp: string, seen: bool) {
    || (seen && ClockPast(fs, stamp))
    || exists n :: IsLatest(fs, n) && Get(fs, Backup(n)) == Get(fs, Binary)
  }

  lemma LatestIsUnique(fs: Files, a: string, b: string)
    requires IsLatest(fs, a) && IsLatest(fs, b)
    ensures a == b
  {
    LessTrichotomy(a, b);
  }

  // The backup rolled back to, n, is this cycle's or else the greatest there was;
  // either way it holds the original bytes exactly when they were Restorable.
  lemma RollbackRestoresIff(fs: Files, stamp: string, seen: bool, n: string)
    requires (seen ==> Binary in fs) && IsLatest(WithBackup(fs, stamp, seen), n)
    ensures seen ==> (n == stamp <==> ClockPast(fs, stamp))
    ensures !(seen && ClockPast(fs, stamp)) ==>
              IsLatest(fs, n) && Get(WithBackup(fs, stamp, seen), Backup(n)) == Get(fs, Backup(n))
    ensures Get(WithBackup(fs, stamp, seen), Backup(n)) == Get(fs, Binary) <==> Restorable(fs, stamp, seen)
  {
    LessTrichotomy(stamp, n);
    var w := WithBackup(fs, stamp, seen);
    assert seen ==> Backup(stamp) in w;
    assert forall m | Backup(m) in fs :: Backup(m) in w;
    if !(seen && ClockPast(fs, stamp)) {
      forall m | IsLatest(fs, m) ensures m == n {
        LatestIsUnique(fs, m, n);
      }
    }
  }

  // Both ways to miss: a backup from the future, and a binary os.Stat did not see.
  lemma RollbackCanMiss(bytes: string, other: string)
    requires bytes != other
    ensures var fs: Files := map[Binary := bytes, Backup("b") := other];
            && !Restorable(fs, "a", true) && IsLatest(WithBackup(fs, "a", true), "b")
            && !Restorable(fs, "c", false) && IsLatest(WithBackup(fs, "c", false), "b") && ClockPast(fs, "c")
  {
    var fs: Files := map[Binary := bytes, Backup("b") := other];
    assert Less("a", "b") && !Less("b", "a") && !Less("c", "b");
    LessTrichotomy("b", "b");
    assert forall m | Backup(m) in fs :: m == "b";
    assert IsLatest(fs, "b");
    assert Backup("b") in fs;
    forall m | IsLatest(fs, m) ensures m == "b" {
      LatestIsUnique(fs, m, "b");
    }
  }

  // The name was given at a time not after `now`.
  ghost predicate TakenBy(name: string, now: Instant) {
    exists t: Instant :: t.Valid() && name == t.Stamp() && !now.Earlier(t)
  }

  ghost predicate StampedBy(fs: Files, now: Instant) { forall m | Backup(m) in fs :: TakenBy(m, now) }

  // Backups taken at no later time put the clock past their names.
  lemma EarlierBackups(fs: Files, now: Instant)
    requires now.Valid() && StampedBy(fs, now)
    ensures ClockPast(fs, now.Stamp())
  {
    hide Instant.Stamp, Less;
    forall m | Backup(m) in fs ensures !Less(now.Stamp(), m) {
      var t: Instant :| t.Valid() && m == t.Stamp() && !now.Earlier(t);
      StampOrder(now, t);
    }
  }

  // Every state one Check goes through, and so whatever a crash in it leaves. The
  // backups are the old ones but for this cycle's. If the binary is not the old
  // one, the release was newer and the download verified, the old binary is
  // completely backed up if it was seen, and the binary is all of the download or,
  // rolled back without a greatest backup of its own, the greatest old backup.
  ghost predicate LeftBy(fs: Files, orig: Files, w: World, sha: string -> string) {
    && (forall n | !(w.seen && n == w.now.Stamp()) :: Get(fs, Backup(n)) == Get(orig, Backup(n)))
    && (Get(fs, Binary) != Get(orig, Binary) ==>
          && Newer(w) && Verifies(sha, w.body, w.sidecar)
          && (w.seen ==> Get(fs, Backup(w.now.Stamp())) == Get(orig, Binary))
          && (Get(fs, Binary) == Some(w.body) || FellBack(fs, orig, w)))
  }

  predicate Newer(w: World) { w.tag.Some? && Semver.Compare(w.currentVer, w.tag.value) < 0 }

  ghost predicate FellBack(fs: Files, orig: Files, w: World) {
    && !(w.seen && ClockPast(orig, w.now.Stamp()))
    && exists n :: IsLatest(orig, n) && Get(fs, Binary) == Get(orig, Backup(n))
  }

  ghost predicate AllLeftBy(history: seq<Files>, start: nat, orig: Files, w: World, sha: string -> string) {
    forall i | start <= i < |history| :: LeftBy(history[i], orig, w, sha)
  }

  // The binary at the end, by outcome.
  ghost predicate Final(o: Outcome, fs: Files, orig: Files, stamp: string, seen: bool, body: string) {
    match o
    case Skipped => fs == orig
    case NoUpdate => fs == orig
    case Updated => Get(fs, Binary) == Some(body)
    case RolledBack => RolledBackFrom(fs, orig, stamp, seen)
    case Failed(SecondRestart) => RolledBackFrom(fs, orig, stamp, seen)
    case Failed(Restarting) => Get(fs, Binary) == Some(body)
    case Failed(RollingBack) => Get(fs, Binary) == Some(body)
    case Failed(_) => Get(fs, Binary) == Get(orig, Binary)
  }

  // The greatest backup is in place, and that is the original exactly when Restorable.
  ghost predicate RolledBackFrom(fs: Files, orig: Files, stamp: string, seen: bool) {
    var kept := WithBackup(orig, stamp, seen);
    && (exists n :: IsLatest(kept, n) && Get(fs, Binary) == Get(kept, Backup(n)))
    && (Get(fs, Binary) == Get(orig, Binary) <==> Restorable(orig, stamp, seen))
  }

  // Not skipped, and there is a newer release with an asset.
  ghost predicate IsDue(w: World) {
    && w.pinned == "" && w.currentVer != "dev" && w.currentVer != ""
    && w.tag.Some? && Semver.Compare(w.currentVer, w.tag.value) < 0 && w.hasAsset
  }

  ghost predicate HasBackup(fs: Files) { exists n :: Backup(n) in fs }

  ghost predicate CanRollBack(fs: Files, calls: SwapCalls) {
    && HasBackup(fs) && calls.temp && calls.copy.opens && calls.copy.copies && calls.copy.closes && calls.rename
  }

  // How far a due cycle gets: the download verified, the binary in place.
  ghost predicate Downloads(w: World, sha: string -> string) {
    && IsDue(w) && w.calls.backupDir
    && w.calls.fetch.starts && w.calls.fetch.copies && w.calls.fetch.closes && w.calls.fetch.hashes
    && w.calls.fetch.sidecar && Verifies(sha, w.body, w.sidecar)
  }

  ghost predicate Installs(w: World, sha: string -> string) {
    && Downloads(w, sha) && w.calls.chmod && w.calls.mkdir
    && (w.seen ==> w.calls.backup.opens && w.calls.backup.copies && w.calls.backup.closes)
    && w.calls.install.temp && w.calls.install.close && w.calls.install.copy.opens
    && w.calls.install.copy.copies && w.calls.install.copy.closes && w.calls.install.rename
  }

  // Which outcome, exactly; with a seen binary there is a backup to roll back to.
  ghost predicate Ends(o: Outcome, orig: Files, w: World, sha: string -> string) {
    var up, can := ComesUp(w.attempts, w.probe), CanRollBack(WithBackup(orig, w.now.Stamp(), w.seen), w.calls.rollback);
    && (o == Failed(BackupDir) <==> IsDue(w) && !w.calls.backupDir)
    && (o == Failed(Downloading) <==> IsDue(w) && w.calls.backupDir && !Downloads(w, sha))
    && (o == Failed(Chmod) <==> Downloads(w, sha) && !w.calls.chmod)
    && (o == Failed(Installing) <==> Downloads(w, sha) && w.calls.chmod && !Installs(w, sha))
    && (o == Failed(Restarting) <==> Installs(w, sha) && !w.calls.restart)
    && (o == Updated <==> Installs(w, sha) && w.calls.restart && up)
    && (o == Failed(RollingBack) <==> Installs(w, sha) && w.calls.restart && !up && !can)
    && (o == Failed(SecondRestart) <==> Installs(w, sha) && w.calls.restart && !up && can && !w.calls.restartBack)
    && (o == RolledBack <==> Installs(w, sha) && w.calls.restart && !up && can && w.calls.restartBack)
  }

  class Updater {
    const disk: Disk
    const sha: string -> string

    constructor (disk: Disk, sha: string -> string)
      ensures this.disk == disk && this.sha == sha
    {
      this.disk, this.sha := disk, sha;
    }

    // "On any failure the partial file at dest is removed": exactly if the Remove
    // works and the failure is not that of Close, which skips it; a request that
    // never starts leaves whatever was there.
    method DownloadAndVerify(body: string, sidecar: string, fetch: Fetch) returns (r: Download)
      requires disk.Valid()
      modifies disk
      ensures disk.Valid() && old(disk.history) <= disk.history
      ensures AllSameBut(disk.history, |old(disk.history)|, old(disk.files), {Staged})
      ensures SameBut(disk.files, old(disk.files), {Staged})
      ensures r.Verified? <==> fetch.starts && fetch.copies && fetch.closes && fetch.hashes && fetch.sidecar
                               && Verifies(sha, body, sidecar)
      ensures Verifies(sha, body, sidecar) <==>
                && SidecarDigest(sidecar).Some?
                && var digest := SidecarDigest(sidecar).value;
                && |sha(body)| == |digest|
                && forall i | 0 <= i < |digest| :: SameLetter(sha(body)[i], digest[i])
      ensures r.Verified? ==> Get(disk.files, Staged) == Some(body)
      ensures !r.Verified? ==>
                (Staged !in disk.files <==>
                   if fetch.starts then fetch.removes && (fetch.copies ==> fetch.closes)
                   else Staged !in old(disk.files))
      ensures r.CloseFailed? <==> fetch.starts && fetch.copies && !fetch.closes
      ensures r.CloseFailed? ==> Get(disk.files, Staged) == Some(body)
      ensures r.NotStarted? <==> !fetch.starts
      ensures r.NotStarted? ==> disk.files == old(disk.files)
      ensures r.Mismatch? ==> !Verifies(sha, body, sidecar)
      ensures r.SidecarFailed? && fetch.sidecar ==> SidecarDigest(sidecar).None?
    {
      if !fetch.starts {
        return NotStarted;
      }
      disk.Set(disk.files[Staged := ""]);
      disk.Write(Staged, body, fetch.copies);
      if !fetch.copies {
        disk.Remove(Staged, fetch.removes);
        return CopyFailed;
      }
      if !fetch.closes {
        return CloseFailed;
      }
      if !fetch.hashes {
        disk.Remove(Staged, fetch.removes);
        return HashFailed;
      }
      var want := if fetch.sidecar then SidecarDigest(sidecar) else None;
      if want.None? {
        disk.Remove(Staged, fetch.removes);
        return SidecarFailed;
      }
      EqualFoldMeans(sha(body), want.value);
      if !EqualFold(sha(body), want.value) {
        disk.Remove(Staged, fetch.removes);
        return Mismatch;
      }
      r := Verified;
    }

    // Restart, probe, and roll back if the probe fails (updater.go:128-147).
    // A first restart that fails leaves the new binary in place.
    method Activate(calls: Calls, attempts: int, probe: int -> Probe) returns (o: Outcome, ghost latest: string)
      requires disk.Valid()
      modifies disk
      ensures disk.Valid() && old(disk.history) <= disk.history
      ensures o.Updated? || o.RolledBack? || (o.Failed? && o.stage in {Restarting, RollingBack, SecondRestart})
      ensures o.Updated? || o == Failed(Restarting) ==> disk.history == old(disk.history)
      ensures o == Failed(Restarting) <==> !calls.restart
      ensures o.Updated? <==> calls.restart && ComesUp(attempts, probe)
      ensures o == Failed(RollingBack) <==>
                calls.restart && !ComesUp(attempts, probe) && !CanRollBack(old(disk.files), calls.rollback)
      ensures o == Failed(SecondRestart) <==>
                && calls.restart && !ComesUp(attempts, probe) && CanRollBack(old(disk.files), calls.rollback)
                && !calls.restartBack
      ensures o == Failed(RollingBack) ==> Get(disk.files, Binary) == Get(old(disk.files), Binary)
      ensures o.RolledBack? || o == Failed(SecondRestart) ==>
                IsLatest(old(disk.files), latest) && Get(disk.files, Binary) == Get(old(disk.files), Backup(latest))
      ensures disk.history != old(disk.history) ==> IsLatest(old(disk.files), latest)
      ensures forall i | |old(disk.history)| <= i < |disk.history| ::
                MidSwap(disk.history[i], old(disk.files), Get(old(disk.files), Backup(latest)))
    {
      latest := "";
      if !calls.restart {
        return Failed(Restarting), "";
      }
      var healthy := HealthCheck(attempts, probe);
      if healthy {
        return Updated, "";
      }
      var back;
      back, latest := disk.Rollback(calls.rollback);
      if !back {
        return Failed(RollingBack), latest;
      }
      if !calls.restartBack {
        return Failed(SecondRestart), latest;
      }
      o := RolledBack;
    }

    // Download, verify, install (updater.go:113-126); returns the stage that failed.
    method Place(w: World) returns (failed: Option<Stage>)
      requires disk.Valid() && (w.seen ==> Binary in disk.files) && IsDue(w)
      modifies disk
      ensures disk.Valid() && old(disk.history) <= disk.history
      ensures AllLeftBy(disk.history, |old(disk.history)|, old(disk.files), w, sha)
      ensures failed == Some(BackupDir) <==> !w.calls.backupDir
      ensures failed == Some(Downloading) <==> w.calls.backupDir && !Downloads(w, sha)
      ensures failed == Some(Chmod) <==> Downloads(w, sha) && !w.calls.chmod
      ensures failed == Some(Installing) <==> Downloads(w, sha) && w.calls.chmod && !Installs(w, sha)
      ensures failed.None? <==> Installs(w, sha)
      ensures Get(disk.files, Binary) == if failed.None? then Some(w.body) else Get(old(disk.files), Binary)
      ensures failed.None? ==> BackupsAre(disk.files, WithBackup(old(disk.files), w.now.Stamp(), w.seen))
    {
      hide Verifies, Instant.Stamp, LeftBy, AllLeftBy, Newer, MidInstall, AllSameBut, IsDue, BackupsAre;
      var stamp := w.now.Stamp();
      ghost var orig, start := disk.files, |disk.history|;
      NothingLeft(disk.history, start, orig, w, sha);
      if !w.calls.backupDir {
        return Some(BackupDir);
      }
      var dl := DownloadAndVerify(w.body, w.sidecar, w.calls.fetch);
      AfterDownload(disk.history, start, orig, w, sha);
      ghost var mid, h1 := disk.files, disk.history;
      assert Get(mid, Binary) == Get(orig, Binary);
      hide SameBut;
      if !dl.Verified? {
        return Some(Downloading);
      }
      if !w.calls.chmod {
        return Some(Chmod);
      }
      var installed := disk.Install(Staged, stamp, w.seen, w.calls);
      DueIsNewer(w);
      AfterInstall(h1, disk.history, start, mid, orig, w, sha);
      if !installed {
        return Some(Installing);
      }
      BackupsAfterInstall(disk.files, mid, orig, w);
      failed := None;
    }

    // Then restart, probe, roll back (updater.go:113-147).
    method Upgrade(w: World) returns (o: Outcome)
      requires disk.Valid() && (w.seen ==> Binary in disk.files) && IsDue(w)
      modifies disk
      ensures disk.Valid() && old(disk.history) <= disk.history
      ensures AllLeftBy(disk.history, |old(disk.history)|, old(disk.files), w, sha)
      ensures !o.Skipped? && !o.NoUpdate? && o != Failed(Release)
      ensures Ends(o, old(disk.files), w, sha)
      ensures Final(o, disk.files, old(disk.files), w.now.Stamp(), w.seen, w.body)
    {
      hide Instant.Stamp, IsLatest, Less, AllLeftBy, RolledBackFrom, MidSwap, IsDue, ComesUp, CanRollBack;
      hide Downloads, Installs, BackupsAre, WithBackup, Ends, Final;
      ghost var orig, start := disk.files, |disk.history|;
      PlacedIsNewer(w, sha);
      var failed := Place(w);
      if failed.Some? {
        NotPlaced(failed.value, disk.files, orig, w, sha);
        return Failed(failed.value);
      }
      ghost var before, h2, kept := disk.files, disk.history, WithBackup(orig, w.now.Stamp(), w.seen);
      SameBackups(before, kept, w.calls.rollback);
      ghost var latest;
      o, latest := Activate(w.calls, w.attempts, w.probe);
      AfterRollback(h2, disk.history, start, before, orig, w, sha, latest);
      if o.RolledBack? || o == Failed(SecondRestart) {
        IsRolledBack(disk.files, orig, w.now.Stamp(), w.seen, latest);
      }
      Activated(o, disk.files, orig, w, sha);
    }

    method Check(w: World) returns (o: Outcome)
      requires disk.Valid() && (w.seen ==> Binary in disk.files)
      modifies disk
      ensures disk.Valid() && old(disk.history) <= disk.history
      // a crash at any point, any call failing
      ensures AllLeftBy(disk.history, |old(disk.history)|, old(disk.files), w, sha)
      // every outcome exactly when its cause is there
      ensures o.Skipped? <==> w.pinned != "" || w.currentVer == "dev" || w.currentVer == ""
      ensures o == Failed(Release) <==> !o.Skipped? && w.tag.None?
      ensures o.NoUpdate? <==>
                !o.Skipped? && w.tag.Some? && (Semver.Compare(w.currentVer, w.tag.value) >= 0 || !w.hasAsset)
      ensures o.Skipped? || o.NoUpdate? || o == Failed(Release) ==> disk.history == old(disk.history)
      ensures Ends(o, old(disk.files), w, sha)
      // nothing failing, an eligible cycle ends as the probes say
      ensures IsDue(w) && w.calls.AllWork() && Verifies(sha, w.body, w.sidecar)
              && (w.seen || HasBackup(old(disk.files))) ==>
                o == (if ComesUp(w.attempts, w.probe) then Updated else RolledBack)
      ensures Final(o, disk.files, old(disk.files), w.now.Stamp(), w.seen, w.body)
    {
      hide AllLeftBy, Verifies, Semver.Compare, Instant.Stamp;
      NothingLeft(disk.history, |disk.history|, disk.files, w, sha);
      if w.pinned != "" {
        return Skipped;
      }
      if w.currentVer == "dev" || w.currentVer == "" {
        return Skipped;
      }
      if w.tag.None? {
        return Failed(Release);
      }
      var cmp := Semver.SemverCompare(w.currentVer, w.tag.value);
      if cmp >= 0 {
        return NoUpdate;
      }
      if !w.hasAsset {
        return NoUpdate;
      }
      o := Upgrade(w);
    }

    // One Check, cut off by its own end or by a crash after its first `cut` changes.
    method CheckCutOff(w: World, cut: nat) returns (ghost o: Outcome, ghost whole: seq<Files>)
      requires disk.Valid() && (w.seen ==> Binary in disk.files)
      modifies disk
      ensures disk.Valid() && LeftBy(disk.files, old(disk.files), w, sha)
      ensures old(disk.history) <= whole && Ends(o, old(disk.files), w, sha)
      ensures var n := |old(disk.history)| + cut; disk.history == if n <= |whole| then whole[..n] else whole
      ensures Final(o, whole[|whole| - 1], old(disk.files), w.now.Stamp(), w.seen, w.body)
    {
      hide AllLeftBy, LeftBy, Final, Ends, IsDue, Semver.Compare;
      var begun := |disk.history|;
      o := Check(w);
      whole := disk.history;
      if begun + cut <= |disk.history| {
        disk.Crash(begun + cut);
      }
      LeftAfterCrash(whole, disk.history, begun, old(disk.files), w, sha);
    }

    // What the installed binary says of itself, or "dev", which Check refuses to touch.
    method DetectCurrentVersion(runs: bool, reports: string -> Semver.Version) returns (v: string)
      ensures v == if Binary in disk.files && runs then reports(disk.files[Binary]).Tag() else "dev"
    {
      if Binary !in disk.files {
        return "dev";
      }
      if !runs {
        return "dev";
      }
      v := reports(disk.files[Binary]).Tag();
    }

    // One timer tick: read the installed version, check, be cut off anywhere.
    method Cycle(w: World, reports: string -> Semver.Version, cut: nat)
      requires disk.Valid() && (w.seen ==> Binary in disk.files)
      modifies disk
      ensures disk.Valid() && LeftBy(disk.files, old(disk.files), AsInstalled(w, old(disk.files), reports), sha)
    {
      hide LeftBy, AsInstalled;
      var v := DetectCurrentVersion(w.runs, reports);
      ReadsVersion(w, disk.files, reports, v);
      ghost var _, _ := CheckCutOff(w.(currentVer := v), cut);
    }

    // One cycle after another: the installed version never decreases.
    method Cycles(worlds: seq<World>, reports: string -> Semver.Version, cuts: seq<nat>)
      returns (ghost states: seq<Files>)
      requires |cuts| == |worlds|
      requires disk.Valid() && Installed(disk.files, reports)
      requires Forward(worlds) && (worlds != [] ==> StampedBy(disk.files, worlds[0].now))
      requires forall k | 0 <= k < |worlds| :: Honest(worlds[k], reports, sha)
      requires forall k | 0 <= k < |worlds| :: worlds[k].runs ==> worlds[k].seen
      modifies disk
      ensures |states| == |worlds| + 1 && states[0] == old(disk.files) && states[|worlds|] == disk.files
      ensures IsRun(states, worlds, reports, sha)
      ensures forall i, j | 0 <= i <= j < |states| :: NotOlder(states[i], states[j], reports)
    {
      hide LeftBy, AsInstalled, Installed, Honest, StampedBy, NotOlder, IsRun, Steady;
      states := [disk.files];
      EmptyRun(states, reports, sha);
      for k := 0 to |worlds|
        invariant disk.Valid() && |states| == k + 1 && states[0] == old(disk.files) && states[k] == disk.files
        invariant Installed(disk.files, reports) && (k < |worlds| ==> StampedBy(disk.files, worlds[k].now))
        invariant IsRun(states, worlds[..k], reports, sha)
      {
        ghost var before := disk.files;
        InstalledHasBinary(before, reports);
        Cycle(worlds[k], reports, cuts[k]);
        SeenIsSteady(before, worlds[k], reports);
        CycleNeverDowngrades(before, disk.files, worlds[k], reports, sha);
        NotOlderInstalls(before, disk.files, reports);
        RunGoesOn(states, worlds, k, disk.files, reports, sha);
        states := states + [disk.files];
        if k + 1 < |worlds| {
          StampsMoveOn(before, disk.files, worlds[k], worlds[k + 1].now, reports, sha);
        }
      }
      assert worlds[..|worlds|] == worlds;
      RunNeverDecreases(states, worlds, reports, sha);
    }
  }

  lemma EmptyRun(states: seq<Files>, reports: string -> Semver.Version, sha: string -> string)
    requires |states| == 1
    ensures forall worlds: seq<World> | worlds == [] :: IsRun(states, worlds, reports, sha)
  {
  }

  lemma RunGoesOn(states: seq<Files>, worlds: seq<World>, k: nat, next: Files, reports: string -> Semver.Version,
      sha: string -> string)
    requires k < |worlds| && IsRun(states, worlds[..k], reports, sha)
    requires LeftBy(next, states[k], AsInstalled(worlds[k], states[k], reports), sha)
    ensures IsRun(states + [next], worlds[..k + 1], reports, sha)
  {
    hide LeftBy, AsInstalled;
    var all := states + [next];
    forall i | 0 <= i < k + 1 ensures LeftBy(all[i + 1], all[i], AsInstalled(worlds[i], all[i], reports), sha) {
      if i < k {
        assert worlds[..k][i] == worlds[i];
      }
    }
  }

  lemma SeenIsSteady(fs: Files, w: World, reports: string -> Semver.Version)
    requires w.runs ==> w.seen
    ensures w.runs ==> Steady(fs, w.seen, reports)
  {
  }

  lemma RunNeverDecreases(states: seq<Files>, worlds: seq<World>, reports: string -> Semver.Version,
      sha: string -> string)
    requires IsRun(states, worlds, reports, sha) && Forward(worlds)
    requires |states| == |worlds| + 1
    requires Installed(states[0], reports) && (worlds != [] ==> StampedBy(states[0], worlds[0].now))
    requires forall k | 0 <= k < |worlds| :: Honest(worlds[k], reports, sha) && (worlds[k].runs ==> worlds[k].seen)
    ensures forall i, j | 0 <= i <= j < |states| :: NotOlder(states[i], states[j], reports)
  {
    hide IsRun, Forward, Installed, StampedBy, Honest, NotOlder, Steady;
    forall k | 0 <= k < |worlds| ensures worlds[k].runs ==> Steady(states[k], worlds[k].seen, reports) {
      SeenIsSteady(states[k], worlds[k], reports);
    }
    forall i, j | 0 <= i <= j < |states| ensures NotOlder(states[i], states[j], reports) {
      InstalledNeverDecreases(states, worlds, reports, sha, i, j);
    }
  }

  lemma DueIsNewer(w: World)
    requires IsDue(w)
    ensures Newer(w)
  {
  }

  lemma PlacedIsNewer(w: World, sha: string -> string)
    ensures Installs(w, sha) ==> Newer(w) && Verifies(sha, w.body, w.sidecar)
    ensures Downloads(w, sha) ==> IsDue(w) && w.calls.backupDir
    ensures Installs(w, sha) ==> Downloads(w, sha) && w.calls.chmod
  {
  }

  lemma NotPlaced(stage: Stage, fs: Files, orig: Files, w: World, sha: string -> string)
    requires stage in {BackupDir, Downloading, Chmod, Installing} && !Installs(w, sha) && IsDue(w)
    requires stage == BackupDir <==> !w.calls.backupDir
    requires stage == Downloading <==> w.calls.backupDir && !Downloads(w, sha)
    requires stage == Chmod <==> Downloads(w, sha) && !w.calls.chmod
    requires stage == Installing <==> Downloads(w, sha) && w.calls.chmod && !Installs(w, sha)
    requires Get(fs, Binary) == Get(orig, Binary)
    ensures Ends(Failed(stage), orig, w, sha) && Final(Failed(stage), fs, orig, w.now.Stamp(), w.seen, w.body)
  {
    hide Downloads, Installs, IsDue, CanRollBack, ComesUp, Instant.Stamp, WithBackup;
  }

  lemma Activated(o: Outcome, fs: Files, orig: Files, w: World, sha: string -> string)
    requires Installs(w, sha) && Downloads(w, sha) && w.calls.backupDir && w.calls.chmod && IsDue(w)
    requires var up := ComesUp(w.attempts, w.probe);
             var can := CanRollBack(WithBackup(orig, w.now.Stamp(), w.seen), w.calls.rollback);
             && (o == Failed(Restarting) <==> !w.calls.restart)
             && (o == Updated <==> w.calls.restart && up)
             && (o == Failed(RollingBack) <==> w.calls.restart && !up && !can)
             && (o == Failed(SecondRestart) <==> w.calls.restart && !up && can && !w.calls.restartBack)
             && (o.Updated? || o.RolledBack? || (o.Failed? && o.stage in {Restarting, RollingBack, SecondRestart}))
    requires o == Failed(Restarting) || o == Updated || o == Failed(RollingBack) ==> Get(fs, Binary) == Some(w.body)
    requires o == RolledBack || o == Failed(SecondRestart) ==> RolledBackFrom(fs, orig, w.now.Stamp(), w.seen)
    ensures Ends(o, orig, w, sha) && Final(o, fs, orig, w.now.Stamp(), w.seen, w.body)
  {
    hide Downloads, Installs, IsDue, CanRollBack, ComesUp, Instant.Stamp, WithBackup, RolledBackFrom;
  }

  // Two directories with the same backups.
  ghost predicate BackupsAre(a: Files, b: Files) { forall n :: Get(a, Backup(n)) == Get(b, Backup(n)) }

  lemma SameBackups(a: Files, b: Files, calls: SwapCalls)
    requires BackupsAre(a, b)
    ensures forall n :: Get(a, Backup(n)) == Get(b, Backup(n)) && (IsLatest(a, n) <==> IsLatest(b, n))
    ensures CanRollBack(a, calls) <==> CanRollBack(b, calls)
  {
    BackupsAgree(a, b);
    assert forall n :: Backup(n) in a <==> Get(a, Backup(n)).Some?;
    assert forall n :: Backup(n) in b <==> Get(b, Backup(n)).Some?;
  }

  lemma NothingLeft(history: seq<Files>, start: nat, orig: Files, w: World, sha: string -> string)
    requires start == |history|
    ensures AllLeftBy(history, start, orig, w, sha)
  {
  }

  // The states of a download ...
  lemma AfterDownload(history: seq<Files>, start: nat, orig: Files, w: World, sha: string -> string)
    requires AllSameBut(history, start, orig, {Staged})
    ensures AllLeftBy(history, start, orig, w, sha)
  {
    forall i | start <= i < |history| ensures LeftBy(history[i], orig, w, sha) {
      assert SameBut(history[i], orig, {Staged});
    }
  }

  // ... of an install after it ...
  lemma AfterInstall(h1: seq<Files>, h2: seq<Files>, start: nat, mid: Files, orig: Files, w: World,
      sha: string -> string)
    requires AllLeftBy(h1, start, orig, w, sha) && h1 <= h2 && SameBut(mid, orig, {Staged})
    requires Newer(w) && Verifies(sha, w.body, w.sidecar)
    requires forall i | |h1| <= i < |h2| :: MidInstall(h2[i], mid, Some(w.body), w.now.Stamp(), w.seen)
    ensures AllLeftBy(h2, start, orig, w, sha)
  {
    hide Newer, Verifies, Instant.Stamp, FellBack;
    forall i | start <= i < |h2| ensures LeftBy(h2[i], orig, w, sha) {
      if i < |h1| {
        assert h2[i] == h1[i];
      }
    }
  }

  // ... and of a rollback after that.
  lemma AfterRollback(h2: seq<Files>, h3: seq<Files>, start: nat, before: Files, orig: Files, w: World,
      sha: string -> string, latest: string)
    requires AllLeftBy(h2, start, orig, w, sha) && h2 <= h3
    requires Newer(w) && Verifies(sha, w.body, w.sidecar) && (w.seen ==> Binary in orig)
    requires Get(before, Binary) == Some(w.body)
    requires forall n :: Get(before, Backup(n)) == Get(WithBackup(orig, w.now.Stamp(), w.seen), Backup(n))
    requires h2 != h3 ==> IsLatest(before, latest)
    requires forall i | |h2| <= i < |h3| :: MidSwap(h3[i], before, Get(before, Backup(latest)))
    ensures AllLeftBy(h3, start, orig, w, sha)
  {
    hide LeftBy;
    forall i | start <= i < |h3| ensures LeftBy(h3[i], orig, w, sha) {
      if i < |h2| {
        assert h3[i] == h2[i];
      } else {
        BackupsAgree(before, WithBackup(orig, w.now.Stamp(), w.seen));
        RollingState(h3[i], before, orig, w, sha, latest);
      }
    }
  }

  lemma RollingState(fs: Files, before: Files, orig: Files, w: World, sha: string -> string, latest: string)
    requires MidSwap(fs, before, Get(before, Backup(latest))) && Get(before, Binary) == Some(w.body)
    requires Newer(w) && Verifies(sha, w.body, w.sidecar) && (w.seen ==> Binary in orig)
    requires forall n :: Get(before, Backup(n)) == Get(WithBackup(orig, w.now.Stamp(), w.seen), Backup(n))
    requires IsLatest(WithBackup(orig, w.now.Stamp(), w.seen), latest)
    ensures LeftBy(fs, orig, w, sha)
  {
    RollbackRestoresIff(orig, w.now.Stamp(), w.seen, latest);
    hide Newer, Verifies, Instant.Stamp, ClockPast, IsLatest, Restorable;
  }

  lemma BackupsAgree(a: Files, b: Files)
    requires forall n :: Get(a, Backup(n)) == Get(b, Backup(n))
    ensures forall n :: IsLatest(a, n) <==> IsLatest(b, n)
  {
    assert forall n :: Backup(n) in a <==> Get(a, Backup(n)).Some?;
    assert forall n :: Backup(n) in b <==> Get(b, Backup(n)).Some?;
  }

  // After a successful install the backups are those rollback is to choose from.
  lemma BackupsAfterInstall(before: Files, mid: Files, orig: Files, w: World)
    requires SameBut(mid, orig, {Staged}) && (w.seen ==> Binary in orig)
    requires MidInstall(before, mid, Some(w.body), w.now.Stamp(), w.seen)
    requires w.seen ==> Get(before, Backup(w.now.Stamp())) == Get(mid, Binary)
    ensures BackupsAre(before, WithBackup(orig, w.now.Stamp(), w.seen))
  {
    hide Instant.Stamp;
    var kept := WithBackup(orig, w.now.Stamp(), w.seen);
    forall n ensures Get(before, Backup(n)) == Get(kept, Backup(n)) {
      assert Get(mid, Backup(n)) == Get(orig, Backup(n));
    }
  }

  lemma IsRolledBack(fs: Files, orig: Files, stamp: string, seen: bool, latest: string)
    requires (seen ==> Binary in orig) && IsLatest(WithBackup(orig, stamp, seen), latest)
    requires Get(fs, Binary) == Get(WithBackup(orig, stamp, seen), Backup(latest))
    ensures RolledBackFrom(fs, orig, stamp, seen)
  {
    RollbackRestoresIff(orig, stamp, seen, latest);
  }

  // ---- many cycles --------------------------------------------------------

  ghost predicate Installed(fs: Files, reports: string -> Semver.Version) {
    Binary in fs && reports(fs[Binary]).Valid()
  }

  // detectCurrentVersion: what the installed binary says of itself, or "dev".
  function AsInstalled(w: World, fs: Files, reports: string -> Semver.Version): World {
    w.(currentVer := if w.runs && Binary in fs then reports(fs[Binary]).Tag() else "dev")
  }

  // A verified download reports the tag it is published under.
  ghost predicate Honest(w: World, reports: string -> Semver.Version, sha: string -> string) {
    Verifies(sha, w.body, w.sidecar) && w.tag.Some? ==>
      reports(w.body).Valid() && w.tag.value == reports(w.body).Tag()
  }

  // The clock never runs backwards.
  ghost predicate Forward(worlds: seq<World>) {
    && (forall k | 0 <= k < |worlds| :: worlds[k].now.Valid())
    && (forall k | 0 < k < |worlds| :: !worlds[k].now.Earlier(worlds[k - 1].now))
  }

  // states[k + 1] is what Check number k, cut off anywhere, made of states[k].
  ghost predicate IsRun(states: seq<Files>, worlds: seq<World>, reports: string -> Semver.Version,
      sha: string -> string)
  {
    && |states| == |worlds| + 1
    && forall k | 0 <= k < |worlds| ::
         LeftBy(states[k + 1], states[k], AsInstalled(worlds[k], states[k], reports), sha)
  }

  ghost predicate NotOlder(a: Files, b: Files, reports: string -> Semver.Version) {
    Installed(a, reports) && Installed(b, reports)
    && Semver.Compare(reports(a[Binary]).Tag(), reports(b[Binary]).Tag()) <= 0
  }

  // The backup this cycle may have to fall back on is no older than the binary.
  // (os.Stat saw the binary, so there is one of its own; or the greatest is as new.)
  ghost predicate Steady(fs: Files, seen: bool, reports: string -> Semver.Version) {
    seen || forall n | IsLatest(fs, n) :: NotOlder(fs, fs[Binary := fs[Backup(n)]], reports)
  }

  lemma ReadsVersion(w: World, fs: Files, reports: string -> Semver.Version, v: string)
    requires v == if Binary in fs && w.runs then reports(fs[Binary]).Tag() else "dev"
    ensures AsInstalled(w, fs, reports) == w.(currentVer := v)
  {
  }

  lemma InstalledHasBinary(fs: Files, reports: string -> Semver.Version)
    requires Installed(fs, reports)
    ensures Binary in fs
  {
  }

  lemma LeftAfterCrash(gone: seq<Files>, left: seq<Files>, begun: nat, before: Files, w: World, sha: string -> string)
    requires left <= gone && 0 < begun <= |left| && left[begun - 1] == before
    requires AllLeftBy(gone, begun, before, w, sha)
    ensures LeftBy(left[|left| - 1], before, w, sha)
  {
    assert left[|left| - 1] == gone[|left| - 1];
  }

  lemma NotOlderReflexive(fs: Files, reports: string -> Semver.Version)
    requires Installed(fs, reports)
    ensures NotOlder(fs, fs, reports)
  {
    Semver.CompareIsPrecedence(reports(fs[Binary]), reports(fs[Binary]));
  }

  // No state of a cycle has an older version than the one it found.
  lemma CycleNeverDowngrades(before: Files, after: Files, w: World, reports: string -> Semver.Version,
      sha: string -> string)
    requires Installed(before, reports) && w.now.Valid() && StampedBy(before, w.now)
    requires Honest(w, reports, sha) && (w.runs ==> Steady(before, w.seen, reports))
    requires LeftBy(after, before, AsInstalled(w, before, reports), sha)
    ensures NotOlder(before, after, reports)
  {
    NotOlderReflexive(before, reports);
    EarlierBackups(before, w.now);
    hide Verifies, Instant.Stamp, StampedBy, ClockPast, IsLatest;
    var v := AsInstalled(w, before, reports);
    if Get(after, Binary) != Get(before, Binary) {
      assert v.currentVer != "dev";
      if Get(after, Binary) != Some(w.body) {
        var n :| IsLatest(before, n) && Get(after, Binary) == Get(before, Backup(n));
      }
    }
  }

  // A rollback loses no version exactly when the guard holds.
  lemma DowngradesExactly(before: Files, after: Files, w: World, reports: string -> Semver.Version)
    requires Installed(before, reports) && w.now.Valid() && StampedBy(before, w.now)
    requires RolledBackFrom(after, before, w.now.Stamp(), w.seen)
    ensures NotOlder(before, after, reports) <==> Steady(before, w.seen, reports)
  {
    NotOlderReflexive(before, reports);
    EarlierBackups(before, w.now);
    hide Instant.Stamp, StampedBy, ClockPast, IsLatest, NotOlder;
    if !w.seen {
      var n :| IsLatest(before, n) && Get(after, Binary) == Get(before, Backup(n));
      forall m | IsLatest(before, m) ensures m == n {
        LatestIsUnique(before, m, n);
      }
      SameBinary(after, before[Binary := before[Backup(n)]], before, reports);
    } else {
      SameBinary(after, before, before, reports);
    }
  }

  lemma SameBinary(a: Files, b: Files, before: Files, reports: string -> Semver.Version)
    requires Get(a, Binary) == Get(b, Binary)
    ensures NotOlder(before, a, reports) <==> NotOlder(before, b, reports)
  {
  }

  lemma StampsMoveOn(before: Files, after: Files, w: World, next: Instant, reports: string -> Semver.Version,
      sha: string -> string)
    requires LeftBy(after, before, AsInstalled(w, before, reports), sha)
    requires w.now.Valid() && StampedBy(before, w.now) && !next.Earlier(w.now)
    ensures StampedBy(after, next)
  {
    hide Instant.Stamp, Newer, Verifies, FellBack;
    forall m | Backup(m) in after ensures TakenBy(m, next) {
      if m == w.now.Stamp() {
        assert w.now.Valid() && m == w.now.Stamp() && !next.Earlier(w.now);
      } else {
        assert Get(after, Backup(m)) == Get(before, Backup(m));
        assert TakenBy(m, w.now);
        var t: Instant :| t.Valid() && m == t.Stamp() && !w.now.Earlier(t);
        assert !next.Earlier(t);
      }
    }
  }

  // Along a run the clock stays past every backup name.
  lemma {:induction false} RunKeepsStamps(states: seq<Files>, worlds: seq<World>, reports: string -> Semver.Version,
      sha: string -> string, k: nat)
    requires IsRun(states, worlds, reports, sha) && Forward(worlds) && k < |worlds|
    requires StampedBy(states[0], worlds[0].now)
    ensures StampedBy(states[k], worlds[k].now)
  {
    if k > 0 {
      RunKeepsStamps(states, worlds, reports, sha, k - 1);
      StampsMoveOn(states[k - 1], states[k], worlds[k - 1], worlds[k].now, reports, sha);
    }
  }

  // Over any run of Checks, each cut off anywhere, with a clock that never runs
  // backwards, the installed version never decreases.
  lemma {:induction false} InstalledNeverDecreases(states: seq<Files>, worlds: seq<World>,
      reports: string -> Semver.Version, sha: string -> string, i: nat, j: nat)
    requires IsRun(states, worlds, reports, sha) && Forward(worlds) && i <= j < |states|
    requires Installed(states[0], reports) && (worlds != [] ==> StampedBy(states[0], worlds[0].now))
    requires forall k | 0 <= k < |worlds| ::
               && Honest(worlds[k], reports, sha)
               && (worlds[k].runs ==> Steady(states[k], worlds[k].seen, reports))
    ensures NotOlder(states[i], states[j], reports)
    decreases j, i
  {
    hide LeftBy, AsInstalled, Honest, Steady, StampedBy, NotOlder;
    if j == 0 {
      NotOlderReflexive(states[0], reports);
    } else {
      InstalledNeverDecreases(states, worlds, reports, sha, 0, j - 1);
      RunKeepsStamps(states, worlds, reports, sha, j - 1);
      assert Installed(states[j - 1], reports) by { NotOlderInstalls(states[0], states[j - 1], reports); }
      CycleNeverDowngrades(states[j - 1], states[j], worlds[j - 1], reports, sha);
      if i < j {
        InstalledNeverDecreases(states, worlds, reports, sha, i, j - 1);
        NotOlderTransitive(states[i], states[j - 1], states[j], reports);
      } else {
        NotOlderInstalls(states[j - 1], states[j], reports);
        NotOlderReflexive(states[j], reports);
      }
    }
  }

  lemma NotOlderInstalls(a: Files, b: Files, reports: string -> Semver.Version)
    requires NotOlder(a, b, reports)
    ensures Installed(a, reports) && Installed(b, reports)
  {
  }

  lemma NotOlderTransitive(a: Files, b: Files, c: Files, reports: string -> Semver.Version)
    requires NotOlder(a, b, reports) && NotOlder(b, c, reports)
    ensures NotOlder(a, c, reports)
  {
    Semver.TotalOrder(reports(a[Binary]), reports(b[Binary]), reports(c[Binary]));
  }
}
