// internal/wg/iface.go: `wg set` on the kernel's peer table, and the PSK files.
//
// The kernel keeps every allowed IP with one peer only: giving an address to a
// peer takes it from whoever held it.
module Wg {
  import opened Text

  datatype KPeer = KPeer(allowed: set<string>, psk: Option<string>)

  // One `wg set` invocation, as issued; psk is what the file named on the
  // command line held at that moment.
  datatype Call = SetPeer(key: string, ip: string, psk: Option<string>) | Remove(key: string)

  datatype Kern = Kern(peers: map<string, KPeer>, files: map<string, string>, log: seq<Call>)

  // What can go wrong around one AddPeer/RemovePeer and the mark after it.
  // A failing WriteFile leaves the first `written` bytes.
  datatype PskWrite = Written | MkdirFails | WriteFails(written: nat)
  datatype Fault = Fault(psk: PskWrite, wg: bool, unlink: bool, mark: bool)

  const NO_FAULT := Fault(Written, true, true, true)

  // ---- PSK file names -----------------------------------------------------

  predicate IsBase64Char(c: char) {
    'A' <= c <= 'Z' || 'a' <= c <= 'z' || '0' <= c <= '9' || c == '+' || c == '/' || c == '='
  }

  // Standard base64 text (section 4 of RFC 4648), nonempty.
  predicate IsBase64(s: string) {
    s != [] && forall i | 0 <= i < |s| :: IsBase64Char(s[i])
  }

  function SafeChar(c: char): char {
    if c == '/' then '_' else if c == '+' then '-' else c
  }

  // strings.NewReplacer("/", "_", "+", "-").Replace
  function Safe(key: string): (s: string)
    ensures |s| == |key| && forall i | 0 <= i < |s| :: s[i] == SafeChar(key[i])
    ensures '/' !in s
  {
    if key == [] then [] else [SafeChar(key[0])] + Safe(key[1..])
  }

  // filepath.Join(dir, safe) for a directory already in clean form.
  function PskFilePath(dir: string, key: string): string {
    dir + "/" + Safe(key)
  }

  // The path is the directory, a slash, and the key with "/" and "+" replaced.
  lemma PskFilePathShape(dir: string, key: string)
    ensures var p := PskFilePath(dir, key);
            && |p| == |dir| + 1 + |key| && p[..|dir|] == dir && p[|dir|] == '/'
            && forall i | 0 <= i < |key| ::
                 p[|dir| + 1 + i] == if key[i] == '/' then '_' else if key[i] == '+' then '-' else key[i]
  {
    assert (dir + "/")[..|dir|] == dir;
    assert PskFilePath(dir, key)[..|dir|] == dir;
  }

  // On base64 keys the replacement is lossless and leaves one path component,
  // which is neither "." nor "..".
  lemma PskFilePathInjective(dir: string, k1: string, k2: string)
    requires IsBase64(k1) && IsBase64(k2)
    ensures PskFilePath(dir, k1) == PskFilePath(dir, k2) <==> k1 == k2
    ensures '/' !in Safe(k1) && Safe(k1) != [] && '.' !in Safe(k1)
  {
    var p1, p2 := PskFilePath(dir, k1), PskFilePath(dir, k2);
    if p1 == p2 {
      assert Safe(k1) == p1[|dir| + 1..] == p2[|dir| + 1..] == Safe(k2);
      forall i | 0 <= i < |k1| ensures k1[i] == k2[i] {
        assert SafeChar(k1[i]) == SafeChar(k2[i]);
        assert IsBase64Char(k1[i]) && IsBase64Char(k2[i]);
      }
      assert k1 == k2;
    }
  }

  // Outside that alphabet it is lossy: the URL-safe letters already are the images.
  lemma PskFilePathCollides(dir: string)
    ensures PskFilePath(dir, "/") == PskFilePath(dir, "_") && !IsBase64("_")
  {
    assert Safe("/") == Safe("_") == "_";
  }

  // ---- the kernel ---------------------------------------------------------

  // wg set <iface> peer <key> allowed-ips <ip> [preshared-key <file>]
  function KernelSet(peers: map<string, KPeer>, key: string, ip: string, psk: Option<string>): map<string, KPeer> {
    var kept := if psk.Some? then psk else if key in peers then peers[key].psk else None;
    (map k | k in peers :: peers[k].(allowed := peers[k].allowed - {ip}))[key := KPeer({ip}, kept)]
  }

  // `if p.PresharedKey != nil`: no PSK and an empty one are the same.
  function Secret(psk: Option<string>): string { if psk.Some? then psk.value else "" }

  // What the kernel should hold for a row with this address and PSK.
  function Expected(ip: string, psk: Option<string>): KPeer {
    KPeer({ip}, if Secret(psk) == "" then None else Some(Secret(psk) + "\n"))
  }

  function Prefix(s: string, n: nat): string { if n <= |s| then s[..n] else s }

  // AddPeer: the new state and whether it returned nil.
  function Added(k: Kern, dir: string, key: string, ip: string, psk: Option<string>, f: Fault): (Kern, bool) {
    var path := PskFilePath(dir, key);
    var content := Secret(psk) + "\n";
    if Secret(psk) != "" && f.psk.MkdirFails? then (k, false)
    else if Secret(psk) != "" && f.psk.WriteFails? then
      (k.(files := k.files[path := Prefix(content, f.psk.written)]), false)
    else
      var files := if Secret(psk) != "" then k.files[path := content] else k.files;
      var read := if Secret(psk) != "" then Some(files[path]) else None;
      (Kern(if f.wg then KernelSet(k.peers, key, ip, read) else k.peers, files, k.log + [SetPeer(key, ip, read)]), f.wg)
  }

  function AddOk(psk: Option<string>, f: Fault): bool { (Secret(psk) == "" || f.psk.Written?) && f.wg }

  // RemovePeer; the file is removed best-effort and only after `wg` succeeded.
  function Removed(k: Kern, dir: string, key: string, f: Fault): (Kern, bool) {
    var path := PskFilePath(dir, key);
    if !f.wg then (k.(log := k.log + [Remove(key)]), false)
    else (Kern(k.peers - {key}, if f.unlink then k.files - {path} else k.files, k.log + [Remove(key)]), true)
  }

  // An AddPeer that succeeds installs exactly the expected peer, unless the key
  // carries an older PSK; it takes `ip` from the others and nothing else.
  lemma AddEffect(k: Kern, dir: string, key: string, ip: string, psk: Option<string>, f: Fault)
    ensures var (k', ok) := Added(k, dir, key, ip, psk, f);
            && ok == AddOk(psk, f)
            && (!ok ==> k'.peers == k.peers)
            && (ok ==> k'.peers.Keys == k.peers.Keys + {key})
            && (ok && (key in k.peers ==> k.peers[key] == Expected(ip, psk)) ==> k'.peers[key] == Expected(ip, psk))
            && (forall o | o in k.peers && o != key ::
                  k'.peers[o] == (if ok then k.peers[o].(allowed := k.peers[o].allowed - {ip}) else k.peers[o]))
            && (forall o | o in k.peers && o != key :: k'.peers[o] == k.peers[o] <==> !ok || ip !in k.peers[o].allowed)
  {
    forall o | o in k.peers && ip !in k.peers[o].allowed
      ensures k.peers[o].allowed - {ip} == k.peers[o].allowed
    {
    }
  }

  // Neither operation touches another base64 key's PSK file, and every file
  // path handed to `wg` held this PSK and a newline at the call.
  lemma FilesFrame(k: Kern, dir: string, key: string, ip: string, psk: Option<string>, f: Fault, other: string)
    requires IsBase64(key) && IsBase64(other) && key != other
    ensures var p := PskFilePath(dir, other);
            && (forall k' | k' == Added(k, dir, key, ip, psk, f).0 || k' == Removed(k, dir, key, f).0 ::
                  (p in k'.files <==> p in k.files) && (p in k.files ==> k'.files[p] == k.files[p]))
    ensures forall c | c in Added(k, dir, key, ip, psk, f).0.log && c !in k.log ::
              c == SetPeer(key, ip, Expected(ip, psk).psk)
    ensures forall c | c in Removed(k, dir, key, f).0.log && c !in k.log :: c == Remove(key)
  {
    PskFilePathInjective(dir, key, other);
  }

  // ---- the code -----------------------------------------------------------

  class Kernel {
    var peers: map<string, KPeer>
    var files: map<string, string>
    var log: seq<Call>
    const pskDir: string

    ghost function View(): Kern
      reads this
    {
      Kern(peers, files, log)
    }

    constructor (pskDir: string)
      ensures this.pskDir == pskDir && View() == Kern(map[], map[], [])
    {
      this.pskDir := pskDir;
      peers, files, log := map[], map[], [];
    }

    method WritePSKFile(key: string, psk: string, f: Fault) returns (path: Option<string>)
      modifies this`files
      ensures path == if f.psk.Written? then Some(PskFilePath(pskDir, key)) else None
      ensures files == match f.psk
                       case Written => old(files)[PskFilePath(pskDir, key) := psk + "\n"]
                       case MkdirFails => old(files)
                       case WriteFails(n) => old(files)[PskFilePath(pskDir, key) := Prefix(psk + "\n", n)]
      ensures f.psk.WriteFails? ==>
                var left := files[PskFilePath(pskDir, key)];
                left <= psk + "\n" && |left| == if f.psk.written <= |psk| then f.psk.written else |psk| + 1
    {
      if f.psk.MkdirFails? {
        return None;
      }
      var p := PskFilePath(pskDir, key);
      var content := psk + "\n";
      if f.psk.WriteFails? {
        files := files[p := Prefix(content, f.psk.written)];
        return None;
      }
      files := files[p := content];
      path := Some(p);
    }

    method AddPeer(key: string, ip: string, psk: string, f: Fault) returns (ok: bool)
      modifies this
      ensures (View(), ok) == Added(old(View()), pskDir, key, ip, Some(psk), f)
      ensures ok <==> f.wg && (psk == "" || f.psk.Written?)
      ensures ok ==> key in peers && peers[key].allowed == {ip}
      ensures ok && psk != "" ==> peers[key].psk == Some(psk + "\n")
                                  && PskFilePath(pskDir, key) in files && files[PskFilePath(pskDir, key)] == psk + "\n"
      ensures ok ==> forall o | o in peers && o != key :: ip !in peers[o].allowed
      ensures psk == "" || f.psk.Written? ==>
                log == old(log) + [SetPeer(key, ip, if psk == "" then None else Some(psk + "\n"))]
      ensures psk != "" && !f.psk.Written? ==> log == old(log) && peers == old(peers)
    {
      var read: Option<string> := None;
      if psk != "" {
        var path := WritePSKFile(key, psk, f);
        if path.None? {
          return false;
        }
        read := Some(files[path.value]);
      }
      log := log + [SetPeer(key, ip, read)];
      if !f.wg {
        return false;
      }
      peers := KernelSet(peers, key, ip, read);
      ok := true;
    }

    method RemovePeer(key: string, f: Fault) returns (ok: bool)
      modifies this
      ensures (View(), ok) == Removed(old(View()), pskDir, key, f)
      ensures ok <==> f.wg
      ensures log == old(log) + [Remove(key)]
      ensures ok ==> key !in peers && forall o | o != key ::
                (o in peers <==> o in old(peers)) && (o in peers ==> peers[o] == old(peers)[o])
      ensures !ok ==> peers == old(peers) && files == old(files)
      ensures ok && f.unlink ==> PskFilePath(pskDir, key) !in files
      ensures ok && !f.unlink ==> files == old(files)
    {
      log := log + [Remove(key)];
      if !f.wg {
        return false;
      }
      peers := peers - {key};
      if f.unlink {
        files := files - {PskFilePath(pskDir, key)};
      }
      ok := true;
    }
  }

  // Only the secret matters, so nil and "" behave alike.
  lemma AddedBySecret(k: Kern, dir: string, key: string, ip: string, psk: Option<string>, f: Fault)
    ensures Added(k, dir, key, ip, psk, f) == Added(k, dir, key, ip, Some(Secret(psk)), f)
  {
  }
}
