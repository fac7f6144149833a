// internal/syncer/loop.go: reading back `wg show <iface> peers`.
module PeerList {
  import opened Text

  // unicode.IsSpace
  predicate IsSpace(c: char) {
    '\t' <= c <= '\r' || c == ' ' || c == '\U{85}' || c == '\U{A0}' || c == '\U{1680}' ||
    '\U{2000}' <= c <= '\U{200A}' || c == '\U{2028}' || c == '\U{2029}' || c == '\U{202F}' || c == '\U{205F}' ||
    c == '\U{3000}'
  }

  predicate Spaces(s: string) { forall i | 0 <= i < |s| :: IsSpace(s[i]) }

  // A key as `wg show` prints it: nonempty, no white space.
  predicate Clean(key: string) { key != [] && forall i | 0 <= i < |key| :: !IsSpace(key[i]) }

  function TrimLeft(s: string): string {
    if s != [] && IsSpace(s[0]) then TrimLeft(s[1..]) else s
  }

  function TrimRight(s: string): string {
    if s != [] && IsSpace(s[|s| - 1]) then TrimRight(s[..|s| - 1]) else s
  }

  // strings.TrimSpace
  function TrimSpace(s: string): string { TrimRight(TrimLeft(s)) }

  // strings.TrimRight(s, "\n"), done by the runner
  function TrimNewlines(s: string): string {
    if s != [] && s[|s| - 1] == '\n' then TrimNewlines(s[..|s| - 1]) else s
  }

  function KeysOf(lines: seq<string>): set<string> {
    if lines == [] then {}
    else
      var line := TrimSpace(lines[|lines| - 1]);
      KeysOf(lines[..|lines| - 1]) + (if line == "" then {} else {line})
  }

  // What currentWGPeers makes of the output.
  function Parse(out: string): set<string> { KeysOf(Split(out, '\n')) }

  method CurrentWGPeers(out: string) returns (peers: set<string>)
    ensures peers == Parse(out)
  {
    var lines := Split(out, '\n');
    peers := {};
    for i := 0 to |lines|
      invariant peers == KeysOf(lines[..i])
    {
      assert lines[..i + 1][..i] == lines[..i];
      var line := TrimSpace(lines[i]);
      if line == "" {
        continue;
      }
      peers := peers + {line};
    }
    assert lines[..|lines|] == lines;
  }

  // One line of output: a key, or nothing, between white space.
  datatype Line = Line(left: string, key: string, right: string) {
    function Text(): string { left + key + right }

    ghost predicate Valid() {
      Spaces(left) && Spaces(right) && '\n' !in left && '\n' !in right && (key == "" || Clean(key))
    }
  }

  function Texts(lines: seq<Line>): (r: seq<string>)
    ensures |r| == |lines| && forall i | 0 <= i < |r| :: r[i] == lines[i].Text()
  {
    if lines == [] then [] else [lines[0].Text()] + Texts(lines[1..])
  }

  lemma {:induction false} TrimLeftSpaces(a: string, s: string)
    requires Spaces(a)
    ensures TrimLeft(a + s) == TrimLeft(s)
  {
    if a == [] {
      assert a + s == s;
    } else {
      assert (a + s)[1..] == a[1..] + s;
      TrimLeftSpaces(a[1..], s);
    }
  }

  lemma {:induction false} TrimRightSpaces(s: string, b: string)
    requires Spaces(b)
    ensures TrimRight(s + b) == TrimRight(s)
  {
    if b == [] {
      assert s + b == s;
    } else {
      assert (s + b)[..|s + b| - 1] == s + b[..|b| - 1];
      TrimRightSpaces(s, b[..|b| - 1]);
    }
  }

  lemma TrimLine(l: Line)
    requires l.Valid()
    ensures TrimSpace(l.Text()) == l.key && '\n' !in l.Text()
  {
    assert l.Text() == l.left + (l.key + l.right);
    TrimLeftSpaces(l.left, l.key + l.right);
    if l.key == "" {
      assert l.key + l.right == l.right + [];
      TrimLeftSpaces(l.right, []);
    } else {
      TrimRightSpaces(l.key, l.right);
    }
    assert forall c | c in l.key :: IsSpace('\n') && c != '\n';
  }

  // Parsing undoes printing: any keys, in any order, with blank lines and
  // surrounding spaces anywhere.
  lemma {:induction false} ParsePrinted(lines: seq<Line>)
    requires lines != [] && forall i | 0 <= i < |lines| :: lines[i].Valid()
    ensures Parse(Join(Texts(lines), '\n')) == LineKeys(lines)
  {
    forall i | 0 <= i < |lines| ensures '\n' !in Texts(lines)[i] {
      TrimLine(lines[i]);
    }
    SplitJoin(Texts(lines), '\n');
    KeysOfTexts(lines);
  }

  lemma {:induction false} KeysOfTexts(lines: seq<Line>)
    requires forall i | 0 <= i < |lines| :: lines[i].Valid()
    ensures KeysOf(Texts(lines)) == LineKeys(lines)
  {
    hide Line.Valid, Texts, KeysOf, LineKeys;
    if lines == [] {
      NoLines();
    } else {
      var before, last := lines[..|lines| - 1], lines[|lines| - 1];
      KeysOfTexts(before);
      OneMoreLine(before, last);
      assert before + [last] == lines;
    }
  }

  lemma NoLines()
    ensures KeysOf(Texts([])) == LineKeys([])
  {
  }

  lemma OneMoreLine(lines: seq<Line>, l: Line)
    requires l.Valid() && KeysOf(Texts(lines)) == LineKeys(lines)
    ensures KeysOf(Texts(lines + [l])) == LineKeys(lines + [l])
  {
    hide TrimSpace, Line.Valid, Texts, KeysOf, LineKeys, Line.Text;
    TrimLine(l);
    KeysSnoc(lines, l);
    TextsSnoc(lines, l);
    KeysOfSnoc(Texts(lines), l.Text());
  }

  function LineKeys(lines: seq<Line>): set<string> { set l | l in lines && l.key != "" :: l.key }

  lemma TextsSnoc(lines: seq<Line>, l: Line)
    ensures Texts(lines + [l]) == Texts(lines) + [l.Text()]
  {
  }

  lemma KeysOfSnoc(texts: seq<string>, t: string)
    ensures KeysOf(texts + [t]) == KeysOf(texts) + (if TrimSpace(t) == "" then {} else {TrimSpace(t)})
  {
    assert (texts + [t])[..|texts|] == texts;
  }

  lemma KeysSnoc(lines: seq<Line>, l: Line)
    ensures LineKeys(lines + [l]) == LineKeys(lines) + (if l.key == "" then {} else {l.key})
  {
    var all := lines + [l];
    assert forall x :: x in all <==> x in lines || x == l;
  }

  // White space in ASCII is tab, newline, vertical tab, form feed, return and blank.
  lemma AsciiSpaces(c: char)
    requires (c as int) < 128
    ensures IsSpace(c) <==> c as int in {9, 10, 11, 12, 13, 32}
  {
  }

  // Cutting trailing newlines, as the runner does, changes nothing.
  lemma {:induction false} ParseTrimmed(out: string)
    ensures Parse(TrimNewlines(out)) == Parse(out)
  {
    if out != [] && out[|out| - 1] == '\n' {
      var s := out[..|out| - 1];
      ParseTrimmed(s);
      assert out == s + ['\n'];
      SplitTrailing(s, '\n');
      var lines := Split(s, '\n');
      assert (lines + [""])[..|lines|] == lines;
    }
  }

  lemma {:induction false} SplitTrailing(s: string, sep: char)
    ensures Split(s + [sep], sep) == Split(s, sep) + [[]]
  {
    if s == [] {
      assert [] + [sep] == [sep];
      assert Split([], sep) == [[]];
      assert [sep][1..] == [];
    } else {
      assert (s + [sep])[1..] == s[1..] + [sep];
      SplitTrailing(s[1..], sep);
    }
  }

  lemma ParseEmpty()
    ensures Parse("") == {}
  {
    assert Split("", '\n') == [""];
    assert KeysOf([""]) == {} by { assert [""][..0] == []; }
  }

  // The plain listing, one key a line.
  lemma ParsePlain(keys: seq<string>)
    requires forall i | 0 <= i < |keys| :: Clean(keys[i])
    ensures Parse(TrimNewlines(Join(keys, '\n'))) == set k | k in keys
  {
    hide Parse, TrimNewlines, Clean, IsSpace;
    ParseTrimmed(Join(keys, '\n'));
    if keys == [] {
      ParseEmpty();
    } else {
      var lines := PlainLines(keys);
      hide Join;
      ParsePrinted(lines);
      forall k | k in keys ensures k in LineKeys(lines) {
        var i :| 0 <= i < |keys| && keys[i] == k;
        assert lines[i] in lines && lines[i].key == k;
        NotEmpty(k);
      }
    }
  }

  lemma NotEmpty(key: string)
    requires Clean(key)
    ensures key != ""
  {
  }

  lemma PlainLines(keys: seq<string>) returns (lines: seq<Line>)
    requires forall i | 0 <= i < |keys| :: Clean(keys[i])
    ensures |lines| == |keys| && Texts(lines) == keys
    ensures forall i | 0 <= i < |keys| :: lines[i].Valid() && lines[i].key == keys[i]
  {
    lines := seq(|keys|, i requires 0 <= i < |keys| => Line("", keys[i], ""));
    forall i | 0 <= i < |keys| ensures Texts(lines)[i] == keys[i] {
      assert "" + keys[i] + "" == keys[i];
    }
    assert Texts(lines) == keys;
  }
}
