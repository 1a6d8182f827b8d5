/** The text of the generated module map, and what a reader of it finds: an entry per listed file, leading to
    that file. The plugin rewrites the file only when the text differs, so two different listings must never
    give the same text. */
module GeneratedSource {
  import opened Options

  const MOCKUPS := "src/components/mockups/"

  /** A path the component glob can return, relative to the project root and without empty or dotted parts. */
  predicate IsMockup(path: string) {
    MOCKUPS <= path && forall i | 0 <= i < |Segments(path)| :: Plain(Segments(path)[i])
  }

  type Listing = l: seq<string> | forall i | 0 <= i < |l| :: IsMockup(l[i])

  datatype Component = Component(globKey: string, importPath: string)

  /** `globKey` replaces the leading `src`, `importPath` is relative to `src/.generated`. */
  function Discovered(path: string): Component
    requires IsMockup(path)
  {
    Component("./" + path[4..], "../" + path[4..])
  }

  /* ----- JSON string literals ----- */

  function HexDigit(n: nat): char
    requires n < 16
  {
    "0123456789abcdef"[n]
  }

  /** One character inside a JSON string literal. */
  function Escape(c: char): (e: string)
    ensures e != []
  {
    if c == '\"' then "\\\""
    else if c == '\\' then "\\\\"
    else if c as int == 8 then "\\b"
    else if c as int == 9 then "\\t"
    else if c as int == 10 then "\\n"
    else if c as int == 12 then "\\f"
    else if c as int == 13 then "\\r"
    else if c as int < 32 then ['\\', 'u', '0', '0', HexDigit(c as int / 16), HexDigit(c as int % 16)]
    else [c]
  }

  function EscapeAll(s: string): string {
    if s == [] then [] else Escape(s[0]) + EscapeAll(s[1..])
  }

  function Stringify(s: string): string {
    ['\"'] + EscapeAll(s) + ['\"']
  }

  /* ----- the module text ----- */

  function Entry(c: Component): string {
    "  " + Stringify(c.globKey) + ": () => import(" + Stringify(c.importPath) + ")"
  }

  function DiscoverAll(l: Listing): (components: seq<Component>)
    ensures |components| == |l| && forall i | 0 <= i < |l| :: components[i] == Discovered(l[i])
  {
    seq(|l|, i requires 0 <= i < |l| => Discovered(l[i]))
  }

  /** The entries joined by a comma and a line break. */
  function Entries(components: seq<Component>): string {
    if components == [] then []
    else if |components| == 1 then Entry(components[0])
    else Entry(components[0]) + (",\n" + Entries(components[1..]))
  }

  const HEADER := "// This file is auto-generated by mockupPreviewPlugin.ts.\n"
                + "type ModuleMap = Record<string, () => Promise<Record<string, unknown>>>;\n"
                + "export const modules: ModuleMap = {\n"

  const FOOTER := "\n};\n"

  function GenerateSource(l: Listing): (s: string)
    ensures s != []
  {
    HEADER + Entries(DiscoverAll(l)) + FOOTER
  }

  /* ----- where a path leads ----- */

  /** The parts of a path between its slashes. */
  function Segments(path: string): (segments: seq<string>)
    ensures segments != []
  {
    if path == [] then [[]]
    else
      var rest := Segments(path[1..]);
      if path[0] == '/' then [[]] + rest else [[path[0]] + rest[0]] + rest[1..]
  }

  function Join(segments: seq<string>): string {
    if segments == [] then []
    else if |segments| == 1 then segments[0]
    else segments[0] + ['/'] + Join(segments[1..])
  }

  predicate Plain(segment: string) {
    segment != "" && segment != "." && segment != ".."
  }

  /** Where one gets from a directory by following segments, `.` and `..` included. */
  function Follow(dir: seq<string>, segments: seq<string>): seq<string>
    decreases |segments|
  {
    if segments == [] then dir
    else
      var next := if Plain(segments[0]) then dir + [segments[0]]
                  else if segments[0] == ".." && dir != [] then dir[..|dir| - 1]
                  else dir;
      Follow(next, segments[1..])
  }

  /** The file a relative path means in a directory. */
  function Resolved(dir: string, path: string): string {
    Join(Follow(Segments(dir), Segments(path)))
  }

  lemma {:induction false} JoinedSegments(path: string)
    ensures Join(Segments(path)) == path
  {
    if path != [] {
      var rest := Segments(path[1..]);
      JoinedSegments(path[1..]);
      assert path == [path[0]] + path[1..];
      if path[0] == '/' {
        assert ([[]] + rest)[1..] == rest;
      } else {
        assert ([[path[0]] + rest[0]] + rest[1..])[1..] == rest[1..];
      }
    }
  }

  lemma {:induction false} FollowPlain(dir: seq<string>, segments: seq<string>)
    requires forall i | 0 <= i < |segments| :: Plain(segments[i])
    ensures Follow(dir, segments) == dir + segments
    decreases |segments|
  {
    if segments == [] {
      assert dir + segments == dir;
    } else {
      FollowPlain(dir + [segments[0]], segments[1..]);
      assert dir + segments == (dir + [segments[0]]) + segments[1..];
    }
  }

  /** A name without slashes, a slash and a path: one more segment. */
  lemma {:induction false} SegmentsAfter(name: string, path: string)
    requires '/' !in name
    ensures Segments(name + ['/'] + path) == [name] + Segments(path)
  {
    var whole := name + ['/'] + path;
    if name == [] {
      assert whole[1..] == path;
    } else {
      SegmentsAfter(name[1..], path);
      assert whole[1..] == name[1..] + ['/'] + path;
      assert name == [name[0]] + name[1..];
    }
  }

  lemma MockupParts(path: string) returns (rest: string)
    requires IsMockup(path)
    ensures rest == path[4..] && Segments(path) == ["src"] + Segments(rest)
    ensures forall i | 0 <= i < |Segments(rest)| :: Plain(Segments(rest)[i])
  {
    rest := path[4..];
    assert MOCKUPS[..4] == "src/" && path == "src" + ['/'] + rest;
    SegmentsAfter("src", rest);
    assert Segments(rest) == Segments(path)[1..];
  }

  lemma FollowUp(dir: seq<string>, name: string, segments: seq<string>)
    ensures Follow(dir + [name], [".."] + segments) == Follow(dir, segments)
    ensures Follow(dir, ["."] + segments) == Follow(dir, segments)
  {
    assert (dir + [name])[..|dir|] == dir;
    assert ([".."] + segments)[1..] == segments && (["."] + segments)[1..] == segments;
  }

  /** Both paths of a discovered component lead back to its file: the key from `src`, the import from where the
      module is. */
  lemma LeadsBack(path: string)
    requires IsMockup(path)
    ensures Resolved("src", Discovered(path).globKey) == path
    ensures Resolved("src/.generated", Discovered(path).importPath) == path
  {
    var rest := MockupParts(path);
    JoinedSegments(path);
    FollowPlain(["src"], Segments(rest));
    KeyLeads("src", Discovered(path).globKey, rest);
    ImportLeads("src/.generated", "src", ".generated", Discovered(path).importPath, rest);
  }

  lemma ResolvedBySegments(dir: string, path: string, at: seq<string>, segments: seq<string>)
    requires Segments(dir) == at && Segments(path) == segments
    ensures Resolved(dir, path) == Join(Follow(at, segments))
  {
  }

  lemma KeyLeads(dir: string, key: string, rest: string)
    requires '/' !in dir && key == "./" + rest
    ensures Resolved(dir, key) == Join(Follow([dir], Segments(rest)))
  {
    OneSegment(dir);
    DottedSegments(".", "./", rest);
    ResolvedBySegments(dir, key, [dir], ["."] + Segments(rest));
    FollowUp([dir], "", Segments(rest));
  }

  lemma ImportLeads(dir: string, a: string, b: string, path: string, rest: string)
    requires '/' !in a && '/' !in b && dir == a + ['/'] + b && path == "../" + rest
    ensures Resolved(dir, path) == Join(Follow([a], Segments(rest)))
  {
    TwoSegments(a, b, dir);
    DottedSegments("..", "../", rest);
    ResolvedBySegments(dir, path, [a] + [b], [".."] + Segments(rest));
    FollowUp([a], b, Segments(rest));
  }

  lemma DottedSegments(name: string, prefix: string, rest: string)
    requires '/' !in name && prefix == name + ['/']
    ensures Segments(prefix + rest) == [name] + Segments(rest)
  {
    SegmentsAfter(name, rest);
  }

  lemma TwoSegments(a: string, b: string, path: string)
    requires '/' !in a && '/' !in b && path == a + ['/'] + b
    ensures Segments(path) == [a] + [b]
  {
    SegmentsAfter(a, b);
    OneSegment(b);
  }

  lemma {:induction false} OneSegment(name: string)
    requires '/' !in name
    ensures Segments(name) == [name]
  {
    if name != [] {
      OneSegment(name[1..]);
      assert name == [name[0]] + name[1..];
    }
  }

  /* ----- a reader of the module ----- */

  function HexValue(c: char): Option<nat> {
    if '0' <= c <= '9' then Some(c as int - '0' as int)
    else if 'a' <= c <= 'f' then Some(c as int - 'a' as int + 10)
    else if 'A' <= c <= 'F' then Some(c as int - 'A' as int + 10)
    else None
  }

  function HexNumber(digits: string): Option<nat> {
    if digits == [] then Some(0)
    else
      var high, low := HexNumber(digits[..|digits| - 1]), HexValue(digits[|digits| - 1]);
      if high.Some? && low.Some? then Some(16 * high.value + low.value) else None
  }

  /** The character a string literal goes on with, and how many characters stand for it. */
  function ReadChar(s: string): (r: Option<(char, nat)>)
    requires s != []
    ensures r.Some? ==> 0 < r.value.1 <= |s|
  {
    if s[0] != '\\' then (if s[0] as int < 32 then None else Some((s[0], 1)))
    else if |s| < 2 then None
    else if s[1] in "\"\\/" then Some((s[1], 2))
    else if s[1] == 'b' then Some((8 as char, 2))
    else if s[1] == 't' then Some((9 as char, 2))
    else if s[1] == 'n' then Some((10 as char, 2))
    else if s[1] == 'f' then Some((12 as char, 2))
    else if s[1] == 'r' then Some((13 as char, 2))
    else if s[1] == 'u' && |s| >= 6 then
      var code := HexNumber(s[2..6]);
      if code.Some? && code.value < 0xd800 then Some((code.value as char, 6)) else None
    else None
  }

  /** A string literal without its opening quote: what it says, and the text after its closing quote. */
  function ReadLiteral(s: string): (r: Option<(string, string)>)
    ensures r.Some? ==> |r.value.1| < |s|
    decreases |s|
  {
    if s == [] then None
    else if s[0] == '\"' then Some(([], s[1..]))
    else
      var first := ReadChar(s);
      if first.None? then None
      else
        var rest := ReadLiteral(s[first.value.1..]);
        if rest.None? then None else Some(([first.value.0] + rest.value.0, rest.value.1))
  }

  /** The text after an expected beginning. */
  function After(text: string, expected: string): (rest: Option<string>)
    ensures rest.Some? ==> |rest.value| == |text| - |expected|
  {
    if expected <= text then Some(text[|expected|..]) else None
  }

  /** One line of the module map: its key, its import, and the text after it. */
  function ReadEntry(text: string): (r: Option<((string, string), string)>)
    ensures r.Some? ==> |r.value.1| < |text|
  {
    var start := After(text, "  \"");
    if start.None? then None
    else
      var key := ReadLiteral(start.value);
      if key.None? then None
      else
        var arrow := After(key.value.1, ": () => import(\"");
        if arrow.None? then None
        else
          var path := ReadLiteral(arrow.value);
          if path.None? then None
          else
            var closed := After(path.value.1, ")");
            if closed.None? then None else Some(((key.value.0, path.value.0), closed.value))
  }

  function ReadEntries(text: string): Option<seq<(string, string)>>
    decreases |text|
  {
    var entry := ReadEntry(text);
    if entry.None? then None
    else if entry.value.1 == "\n};\n" then Some([entry.value.0])
    else
      var more := After(entry.value.1, ",\n");
      if more.None? then None
      else
        var rest := ReadEntries(more.value);
        if rest.None? then None else Some([entry.value.0] + rest.value)
  }

  /** The module map a text declares: keys with the paths they import. */
  function ReadModule(text: string): Option<seq<(string, string)>> {
    var body := After(text, "// This file is auto-generated by mockupPreviewPlugin.ts.\n" +
                            "type ModuleMap = Record<string, () => Promise<Record<string, unknown>>>;\n" +
                            "export const modules: ModuleMap = {\n");
    if body.None? then None
    else if body.value == "\n};\n" then Some([])
    else ReadEntries(body.value)
  }

  lemma AfterPrefix(expected: string, rest: string)
    ensures After(expected + rest, expected) == Some(rest)
  {
  }

  lemma ReadsEscape(c: char, x: string)
    ensures ReadChar(Escape(c) + x) == Some((c, |Escape(c)|))
    ensures (Escape(c) + x)[|Escape(c)|..] == x && (Escape(c) + x)[0] != '\"'
  {
    if c as int < 32 && |Escape(c)| == 6 {
      var digits := [ '0', '0', HexDigit(c as int / 16), HexDigit(c as int % 16)];
      assert (Escape(c) + x)[2..6] == digits;
      HexReads(c as int / 16, c as int % 16);
    }
  }

  lemma HexDigitReads(n: nat)
    requires n < 16
    ensures HexValue(HexDigit(n)) == Some(n)
  {
  }

  lemma HexReads(high: nat, low: nat)
    requires high < 16 && low < 16
    ensures HexNumber(['0', '0', HexDigit(high), HexDigit(low)]) == Some(16 * high + low)
  {
    HexDigitReads(high);
    HexDigitReads(low);
    var two, three := ['0', '0'], ['0', '0', HexDigit(high)];
    var four := three + [HexDigit(low)];
    assert two[..1] == ['0'] && ['0'][..0] == [] && HexNumber(['0']) == Some(0);
    assert HexNumber(two) == Some(0);
    assert three[..2] == two && HexNumber(three) == Some(high);
    assert four[..3] == three && four == ['0', '0', HexDigit(high), HexDigit(low)];
  }

  lemma {:induction false} ReadsLiteral(s: string, x: string)
    ensures ReadLiteral(EscapeAll(s) + (['\"'] + x)) == Some((s, x))
  {
    var text := EscapeAll(s) + (['\"'] + x);
    if s == [] {
      assert text == ['\"'] + x;
    } else {
      var rest := EscapeAll(s[1..]) + (['\"'] + x);
      assert text == Escape(s[0]) + rest;
      ReadsEscape(s[0], rest);
      ReadsLiteral(s[1..], x);
      assert s == [s[0]] + s[1..];
    }
  }

  /** An entry and the text after it, bracketed as a reader meets it. */
  lemma EntryOpened(c: Component, x: string)
    ensures Entry(c) + x
         == "  \"" + (EscapeAll(c.globKey) + (['\"'] + (": () => import(\"" +
                      (EscapeAll(c.importPath) + (['\"'] + (")" + x))))))
  {
  }

  lemma ReadsEntry(c: Component, x: string)
    ensures ReadEntry(Entry(c) + x) == Some(((c.globKey, c.importPath), x))
  {
    var afterPath := ")" + x;
    var afterKey := ": () => import(\"" + (EscapeAll(c.importPath) + (['\"'] + afterPath));
    EntryOpened(c, x);
    AfterPrefix("  \"", EscapeAll(c.globKey) + (['\"'] + afterKey));
    ReadsLiteral(c.globKey, afterKey);
    AfterPrefix(": () => import(\"", EscapeAll(c.importPath) + (['\"'] + afterPath));
    ReadsLiteral(c.importPath, afterPath);
    AfterPrefix(")", x);
  }

  function Pairs(components: seq<Component>): (pairs: seq<(string, string)>)
    ensures |pairs| == |components|
    ensures forall i | 0 <= i < |pairs| :: pairs[i] == (components[i].globKey, components[i].importPath)
  {
    seq(|components|, i requires 0 <= i < |components| => (components[i].globKey, components[i].importPath))
  }

  lemma {:induction false} ReadsEntries(components: seq<Component>)
    requires components != []
    ensures ReadEntries(Entries(components) + "\n};\n") == Some(Pairs(components))
  {
    var c, rest := components[0], components[1..];
    if |components| == 1 {
      ReadsOne(c);
      assert Pairs(components) == [(c.globKey, c.importPath)];
    } else {
      ReadsEntries(rest);
      EntriesMore(components, "\n};\n");
      ReadsOneMore(c, Entries(rest) + "\n};\n", Pairs(rest));
      PairsMore(components);
    }
  }

  lemma EntriesMore(components: seq<Component>, x: string)
    requires |components| > 1
    ensures Entries(components) + x == Entry(components[0]) + (",\n" + (Entries(components[1..]) + x))
  {
    EntriesRegrouped(Entry(components[0]), Entries(components[1..]), x);
  }

  lemma PairsMore(components: seq<Component>)
    requires components != []
    ensures Pairs(components) == [(components[0].globKey, components[0].importPath)] + Pairs(components[1..])
  {
  }

  lemma ReadsOne(c: Component)
    ensures ReadEntries(Entry(c) + "\n};\n") == Some([(c.globKey, c.importPath)])
  {
    ReadsEntry(c, "\n};\n");
  }

  lemma EntriesRegrouped(entry: string, entries: string, x: string)
    ensures entry + (",\n" + entries) + x == entry + (",\n" + (entries + x))
  {
  }

  lemma ReadsOneMore(c: Component, rest: string, pairs: seq<(string, string)>)
    requires ReadEntries(rest) == Some(pairs)
    ensures ReadEntries(Entry(c) + (",\n" + rest)) == Some([(c.globKey, c.importPath)] + pairs)
  {
    ReadsEntry(c, ",\n" + rest);
    AfterPrefix(",\n", rest);
    assert (",\n" + rest)[0] == ',';
  }

  lemma EntriesOpenWithSpace(components: seq<Component>)
    requires components != []
    ensures Entries(components) != [] && Entries(components)[0] == ' '
  {
  }

  lemma ReadsModule(l: Listing)
    ensures ReadModule(GenerateSource(l)) == Some(Pairs(DiscoverAll(l)))
  {
    var components := DiscoverAll(l);
    var body := Entries(components) + "\n};\n";
    assert GenerateSource(l) == HEADER + body;
    AfterPrefix(HEADER, body);
    if components == [] {
      assert body == "\n};\n";
    } else {
      EntriesOpenWithSpace(components);
      ReadsEntries(components);
    }
  }

  /** Whatever characters the paths hold, the generated module declares one entry per file of the listing, in its
      order, whose key leads to that file from `src` and whose import leads to it from `src/.generated`. */
  lemma ModuleImportsEachFile(l: Listing) returns (pairs: seq<(string, string)>)
    ensures ReadModule(GenerateSource(l)) == Some(pairs) && |pairs| == |l|
    ensures forall i | 0 <= i < |l| ::
              Resolved("src", pairs[i].0) == l[i] && Resolved("src/.generated", pairs[i].1) == l[i]
  {
    ReadsModule(l);
    pairs := Pairs(DiscoverAll(l));
    forall i | 0 <= i < |l|
      ensures Resolved("src", pairs[i].0) == l[i] && Resolved("src/.generated", pairs[i].1) == l[i]
    {
      LeadsBack(l[i]);
    }
  }

  /** Two listings give the same module text exactly when they are the same listing. */
  lemma SourceTellsListingsApart(l: Listing, m: Listing)
    ensures GenerateSource(l) == GenerateSource(m) <==> l == m
  {
    if GenerateSource(l) == GenerateSource(m) {
      var pairs := ModuleImportsEachFile(l);
      var others := ModuleImportsEachFile(m);
      assert forall i | 0 <= i < |l| :: l[i] == m[i];
    }
  }
}
