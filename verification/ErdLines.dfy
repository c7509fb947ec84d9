/** The lines of a Mermaid ER diagram: what the three regular expressions match, and scanners that
    read the same from left to right without going back. Characters are ASCII. */
module ErdLines {
  import opened Common

  predicate IsSpace(c: char) {
    c == ' ' || '\t' <= c <= '\r' || '\U{1C}' <= c <= '\U{1F}'
  }

  predicate IsLetter(c: char) {
    'a' <= c <= 'z' || 'A' <= c <= 'Z' || c == '_'
  }

  predicate IsWord(c: char) {
    IsLetter(c) || '0' <= c <= '9'
  }

  predicate AllSpace(s: string) {
    forall i :: 0 <= i < |s| ==> IsSpace(s[i])
  }

  predicate AllSolid(s: string) {
    forall i :: 0 <= i < |s| ==> !IsSpace(s[i])
  }

  predicate Identifier(s: string) {
    s != "" && IsLetter(s[0]) && forall i :: 0 <= i < |s| ==> IsWord(s[i])
  }

  predicate Starts(s: string, c: char) {
    s != "" && s[0] == c
  }

  datatype Edge = Edge(parent: string, child: string, text: string)

  // ---- What the regular expressions say --------------------------------------------------------------------
  // Each predicate is one expression from some point on: whatever way there is to split the rest of the
  // line so that the pieces match, as a backtracking matcher finds it.

  /** `\s*` at the start of `s`, up to `i`. */
  predicate SpacesTo(s: string, i: nat) {
    i <= |s| && forall j :: 0 <= j < i ==> IsSpace(s[j])
  }

  /** `([a-zA-Z_]\w*)` at the start of `s`. */
  predicate NameAt(s: string, name: string) {
    Identifier(name) && |name| <= |s| && s[..|name|] == name
  }

  /** `\s*`, then what `p` matches. */
  ghost predicate Spaced(p: string -> bool, s: string) {
    exists i: nat :: SpacesTo(s, i) && p(s[i..])
  }

  /** `\s*([a-zA-Z_]\w*)`, then what `p` matches. */
  ghost predicate Named(p: string -> bool, s: string, name: string) {
    exists i: nat :: SpacesTo(s, i) && NameAt(s[i..], name) && p(s[i..][|name|..])
  }

  ghost function AfterSpaces(p: string -> bool): string -> bool {
    s => Spaced(p, s)
  }

  /** `\}\s*$` */
  predicate Close(s: string) {
    Starts(s, '}') && AllSpace(s[1..])
  }

  /** `\{\s*\}\s*$` */
  ghost predicate Braces(s: string) {
    Starts(s, '{') && Spaced(Close, s[1..])
  }

  /** `^\s*([a-zA-Z_]\w*)\s*\{\s*\}\s*$` */
  ghost predicate IsEmptyEntity(line: string, name: string) {
    Named(AfterSpaces(Braces), line, name)
  }

  /** `\{\s*$` */
  predicate Open(s: string) {
    Starts(s, '{') && AllSpace(s[1..])
  }

  /** `^\s*([a-zA-Z_]\w*)\s*\{\s*$` */
  ghost predicate IsOpenEntity(line: string, name: string) {
    Named(AfterSpaces(Open), line, name)
  }

  /** `"([^"]*)"\s*$` */
  predicate Quoted(s: string, text: string) {
    && Starts(s, '\"') && |text| + 2 <= |s| && s[1..][..|text|] == text && '\"' !in text
    && s[1..][|text|] == '\"' && AllSpace(s[1..][|text| + 1..])
  }

  /** `(\S+)\s*$` */
  predicate Bare(s: string, text: string) {
    text != "" && AllSolid(text) && |text| <= |s| && s[..|text|] == text && AllSpace(s[|text|..])
  }

  /** `(?:"([^"]*)"|(\S+))\s*$`: the first alternative that leads to a match. */
  ghost predicate Text(s: string, text: string) {
    Quoted(s, text) || (Bare(s, text) && forall other :: !Quoted(s, other))
  }

  ghost function TextIs(text: string): string -> bool {
    s => Text(s, text)
  }

  /** `:\s*(text)$` */
  ghost predicate Colon(s: string, text: string) {
    Starts(s, ':') && Spaced(TextIs(text), s[1..])
  }

  ghost function ColonIs(text: string): string -> bool {
    s => Colon(s, text)
  }

  /** `\s+([a-zA-Z_]\w*)\s*:\s*(text)$` */
  ghost predicate Child(s: string, child: string, text: string) {
    s != "" && IsSpace(s[0]) && Named(AfterSpaces(ColonIs(text)), s[1..], child)
  }

  /** `\|\|--\S+\s+(child)\s*:\s*(text)$` */
  ghost predicate Connector(s: string, child: string, text: string) {
    |s| >= 4 && s[..4] == "||--" && exists i: nat :: GlyphsTo(s[4..], i) && Child(s[4..][i..], child, text)
  }

  predicate GlyphsTo(s: string, i: nat) {
    0 < i <= |s| && forall j :: 0 <= j < i ==> !IsSpace(s[j])
  }

  ghost function ConnectorIs(child: string, text: string): string -> bool {
    s => Connector(s, child, text)
  }

  /** `\s+\|\|--\S+\s+(child)\s*:\s*(text)$` */
  ghost function LinkIs(child: string, text: string): string -> bool {
    s => s != "" && IsSpace(s[0]) && Spaced(ConnectorIs(child, text), s[1..])
  }

  /** `^\s*(parent)\s+\|\|--\S+\s+(child)\s*:\s*(text)$` */
  ghost predicate IsEdge(line: string, e: Edge) {
    Named(LinkIs(e.child, e.text), line, e.parent)
  }

  // ---- Scanners --------------------------------------------------------------------------------------------

  function Skip(s: string): (rest: string)
    ensures |rest| <= |s| && (rest == "" || !IsSpace(rest[0]))
  {
    if s != "" && IsSpace(s[0]) then Skip(s[1..]) else s
  }

  function Word(s: string): (w: string)
    ensures |w| <= |s| && w == s[..|w|] && forall i :: 0 <= i < |w| ==> IsWord(w[i])
    ensures |w| < |s| ==> !IsWord(s[|w|])
  {
    if s != "" && IsWord(s[0]) then [s[0]] + Word(s[1..]) else ""
  }

  function Solid(s: string): (w: string)
    ensures |w| <= |s| && w == s[..|w|] && AllSolid(w)
    ensures |w| < |s| ==> IsSpace(s[|w|])
  {
    if s != "" && !IsSpace(s[0]) then [s[0]] + Solid(s[1..]) else ""
  }

  function Unquoted(s: string): (w: string)
    ensures |w| <= |s| && w == s[..|w|] && '\"' !in w
    ensures |w| < |s| ==> s[|w|] == '\"'
  {
    if s != "" && s[0] != '\"' then [s[0]] + Unquoted(s[1..]) else ""
  }

  function ScanEmptyEntity(line: string): Option<string> {
    var s := Skip(line);
    var name := Word(s);
    var braces := Skip(s[|name|..]);
    if Identifier(name) && Starts(braces, '{') && Close(Skip(braces[1..])) then Some(name) else None
  }

  function ScanOpenEntity(line: string): Option<string> {
    var s := Skip(line);
    var name := Word(s);
    if Identifier(name) && Open(Skip(s[|name|..])) then Some(name) else None
  }

  function ScanText(s: string): Option<string> {
    if Starts(s, '\"') && Quoted(s, Unquoted(s[1..])) then Some(Unquoted(s[1..]))
    else if Bare(s, Solid(s)) then Some(Solid(s))
    else None
  }

  function ScanColon(s: string): Option<string> {
    if Starts(s, ':') then ScanText(Skip(s[1..])) else None
  }

  function ScanChild(s: string): Option<(string, string)> {
    if s == "" || !IsSpace(s[0]) then None
    else
      var named := Skip(s[1..]);
      var child := Word(named);
      var text := ScanColon(Skip(named[|child|..]));
      if Identifier(child) && text.Some? then Some((child, text.value)) else None
  }

  function ScanConnector(s: string): Option<(string, string)> {
    if |s| < 4 || s[..4] != "||--" || Solid(s[4..]) == "" then None
    else ScanChild(s[4..][|Solid(s[4..])|..])
  }

  function ScanLink(s: string): Option<(string, string)> {
    if s == "" || !IsSpace(s[0]) then None else ScanConnector(Skip(s[1..]))
  }

  function ScanEdge(line: string): Option<Edge> {
    var s := Skip(line);
    var parent := Word(s);
    var link := ScanLink(s[|parent|..]);
    if Identifier(parent) && link.Some? then Some(Edge(parent, link.value.0, link.value.1)) else None
  }

  // ---- The scanners read what the expressions match ---------------------------------------------------------

  /** There is one way to drop spaces before something solid. */
  lemma {:induction false} SkipAt(s: string, i: nat)
    requires SpacesTo(s, i) && (i == |s| || !IsSpace(s[i]))
    ensures Skip(s) == s[i..]
  {
    if i > 0 {
      SkipAt(s[1..], i - 1);
    }
  }

  lemma {:induction false} SkipSplits(s: string) returns (i: nat)
    ensures SpacesTo(s, i) && s[i..] == Skip(s)
  {
    if s != "" && IsSpace(s[0]) {
      var j := SkipSplits(s[1..]);
      i := j + 1;
    } else {
      i := 0;
    }
  }

  lemma {:induction false} SkipAll(s: string)
    ensures AllSpace(s) <==> Skip(s) == ""
  {
    var i := SkipSplits(s);
    if AllSpace(s) {
      SkipAt(s, |s|);
    }
  }

  lemma {:induction false} WordAt(s: string, w: string)
    requires |w| <= |s| && s[..|w|] == w && (forall i :: 0 <= i < |w| ==> IsWord(w[i])) && (|w| == |s| || !IsWord(s[|w|]))
    ensures Word(s) == w
  {
    if w != "" {
      assert s[0] == w[0] && s[1..][..|w| - 1] == w[1..];
      WordAt(s[1..], w[1..]);
    }
  }

  lemma {:induction false} SolidAt(s: string, i: nat)
    requires i <= |s| && (forall j :: 0 <= j < i ==> !IsSpace(s[j])) && (i == |s| || IsSpace(s[i]))
    ensures Solid(s) == s[..i]
  {
    if i > 0 {
      SolidAt(s[1..], i - 1);
    }
  }

  lemma {:induction false} UnquotedAt(s: string, w: string)
    requires |w| < |s| && s[..|w|] == w && '\"' !in w && s[|w|] == '\"'
    ensures Unquoted(s) == w
  {
    if w != "" {
      assert s[0] == w[0] && s[0] in w && s[1..][..|w| - 1] == w[1..];
      assert forall x :: x in w[1..] ==> x in w;
      UnquotedAt(s[1..], w[1..]);
    }
  }

  /** What may follow spaces: nothing that begins with one. */
  ghost predicate Firm(p: string -> bool) {
    forall s: string :: p(s) ==> s != "" && !IsSpace(s[0])
  }

  /** What may follow a name: nothing that would go on with it. */
  ghost predicate Ends(p: string -> bool) {
    forall s: string :: p(s) ==> s != "" && !IsWord(s[0])
  }

  lemma {:induction false} SpacedIff(p: string -> bool, s: string)
    requires Firm(p)
    ensures Spaced(p, s) <==> p(Skip(s))
  {
    if Spaced(p, s) {
      var i: nat :| SpacesTo(s, i) && p(s[i..]);
      assert s[i..][0] == s[i];
      SkipAt(s, i);
    }
    if p(Skip(s)) {
      var i := SkipSplits(s);
    }
  }

  lemma SpacedEnds(p: string -> bool)
    requires Ends(p)
    ensures Ends(AfterSpaces(p))
  {
    forall s: string | AfterSpaces(p)(s) ensures s != "" && !IsWord(s[0]) {
      var i: nat :| SpacesTo(s, i) && p(s[i..]);
      assert s[i..] != "";
    }
  }

  lemma {:induction false} NameIsThere(p: string -> bool, s: string, i: nat, name: string)
    requires Ends(p) && SpacesTo(s, i) && NameAt(s[i..], name) && p(s[i..][|name|..])
    ensures Skip(s) == s[i..] && Word(s[i..]) == name
  {
    assert s[i] == name[0];
    SkipAt(s, i);
    WordAt(s[i..], name);
  }

  /** There is one way to read a name before something that is no word character. */
  lemma {:induction false} NamedIff(p: string -> bool, s: string, name: string)
    requires Ends(p)
    ensures Named(p, s, name) <==> Identifier(name) && Word(Skip(s)) == name && p(Skip(s)[|name|..])
  {
    if Named(p, s, name) {
      var i: nat :| SpacesTo(s, i) && NameAt(s[i..], name) && p(s[i..][|name|..]);
      NameIsThere(p, s, i, name);
    }
    if Identifier(name) && Word(Skip(s)) == name && p(Skip(s)[|name|..]) {
      hide Skip, Word, Identifier, Ends;
      var i := SkipSplits(s);
      assert NameAt(s[i..], name);
    }
  }

  lemma BracesIff(s: string)
    ensures Braces(s) <==> Starts(s, '{') && Close(Skip(s[1..]))
  {
    if Starts(s, '{') {
      SpacedIff(Close, s[1..]);
    }
  }

  /** A line is read as an empty entity exactly when the expression matches it, with the same name. */
  lemma EmptyEntityIff(line: string, name: string)
    ensures ScanEmptyEntity(line) == Some(name) <==> IsEmptyEntity(line, name)
  {
    var after := Skip(line)[|Word(Skip(line))|..];
    SpacedEnds(Braces);
    NamedIff(AfterSpaces(Braces), line, name);
    SpacedIff(Braces, after);
    BracesIff(Skip(after));
  }

  lemma OpenEntityIff(line: string, name: string)
    ensures ScanOpenEntity(line) == Some(name) <==> IsOpenEntity(line, name)
  {
    SpacedEnds(Open);
    NamedIff(AfterSpaces(Open), line, name);
    SpacedIff(Open, Skip(line)[|Word(Skip(line))|..]);
  }

  lemma QuotedIsUnquoted(s: string, text: string)
    requires Quoted(s, text)
    ensures text == Unquoted(s[1..])
  {
    UnquotedAt(s[1..], text);
  }

  lemma {:induction false} BareIsSolid(s: string, text: string)
    requires Bare(s, text)
    ensures text == Solid(s) && !IsSpace(s[0])
  {
    assert s[0] == text[0];
    assert |text| < |s| ==> s[|text|] == s[|text|..][0];
    SolidAt(s, |text|);
  }

  lemma TextIff(s: string, text: string)
    ensures ScanText(s) == Some(text) <==> Text(s, text)
    ensures Text(s, text) ==> s != "" && !IsSpace(s[0])
  {
    hide Unquoted, Solid;
    forall other | Quoted(s, other) ensures Starts(s, '\"') && other == Unquoted(s[1..]) {
      QuotedIsUnquoted(s, other);
    }
    if Bare(s, text) {
      BareIsSolid(s, text);
    }
    hide Quoted, Bare;
  }

  lemma TextIsFirm(text: string)
    ensures Firm(TextIs(text))
  {
    forall s: string | TextIs(text)(s) ensures s != "" && !IsSpace(s[0]) {
      TextIff(s, text);
    }
  }

  lemma ColonIff(s: string, text: string)
    ensures Colon(s, text) <==> ScanColon(s) == Some(text)
  {
    if Starts(s, ':') {
      TextIsFirm(text);
      SpacedIff(TextIs(text), s[1..]);
      TextIff(Skip(s[1..]), text);
    }
  }

  lemma ColonEnds(text: string)
    ensures Firm(ColonIs(text)) && Ends(ColonIs(text))
  {
    hide Spaced;
  }

  lemma {:induction false} SpacedColonIff(s: string, text: string)
    ensures AfterSpaces(ColonIs(text))(s) <==> ScanColon(Skip(s)) == Some(text)
    ensures Ends(AfterSpaces(ColonIs(text)))
  {
    ColonEnds(text);
    SpacedEnds(ColonIs(text));
    hide Skip, Colon, ScanColon, Spaced, Firm, Ends;
    SpacedIff(ColonIs(text), s);
    ColonIff(Skip(s), text);
  }

  lemma ChildIff(s: string, child: string, text: string)
    ensures Child(s, child, text) <==> ScanChild(s) == Some((child, text))
  {
    if s != "" && IsSpace(s[0]) {
      hide Skip, Word, ScanColon, Named, Identifier, Ends, AfterSpaces, ColonIs;
      var named := Skip(s[1..]);
      SpacedColonIff(named[|Word(named)|..], text);
      NamedIff(AfterSpaces(ColonIs(text)), s[1..], child);
    }
  }

  lemma {:induction false} GlyphsAreSolid(s: string, i: nat, child: string, text: string)
    requires GlyphsTo(s, i) && Child(s[i..], child, text)
    ensures Solid(s) == s[..i]
  {
    assert s[i..][0] == s[i];
    SolidAt(s, i);
  }

  lemma ConnectorIff(s: string, child: string, text: string)
    ensures Connector(s, child, text) <==> ScanConnector(s) == Some((child, text))
  {
    hide Child, ScanChild, Solid;
    if |s| >= 4 && s[..4] == "||--" {
      var t := s[4..];
      ChildIff(t[|Solid(t)|..], child, text);
      if Connector(s, child, text) {
        var i: nat :| GlyphsTo(t, i) && Child(t[i..], child, text);
        GlyphsAreSolid(t, i, child, text);
      }
      if ScanConnector(s) == Some((child, text)) {
        assert GlyphsTo(t, |Solid(t)|);
      }
    }
  }

  lemma ConnectorIsFirm(child: string, text: string)
    ensures Firm(ConnectorIs(child, text))
  {
    forall s: string | ConnectorIs(child, text)(s) ensures s != "" && !IsSpace(s[0]) {
      assert s[0] == s[..4][0];
    }
  }

  lemma LinkIff(s: string, child: string, text: string)
    ensures LinkIs(child, text)(s) <==> ScanLink(s) == Some((child, text))
  {
    if s != "" && IsSpace(s[0]) {
      hide Skip, Connector, ScanConnector;
      ConnectorIsFirm(child, text);
      SpacedIff(ConnectorIs(child, text), s[1..]);
      ConnectorIff(Skip(s[1..]), child, text);
    }
  }

  lemma LinkEnds(child: string, text: string)
    ensures Ends(LinkIs(child, text))
  {
    hide Spaced;
  }

  /** A line is read as an edge exactly when the expression matches it, with the same groups. */
  lemma EdgeIff(line: string, e: Edge)
    ensures ScanEdge(line) == Some(e) <==> IsEdge(line, e)
  {
    hide Skip, Word, LinkIs, ScanLink;
    LinkEnds(e.child, e.text);
    NamedIff(LinkIs(e.child, e.text), line, e.parent);
    LinkIff(Skip(line)[|Word(Skip(line))|..], e.child, e.text);
  }
}
