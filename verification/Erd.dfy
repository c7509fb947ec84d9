/** Printing a schema as an ER diagram, reading it back, and the drift verdict between two diagrams.
    A document is the list of its lines. */
module Erd {
  import opened Common
  import opened ErdLines

  // ---- Printing --------------------------------------------------------------------------------------------

  /** A foreign key as the catalogue query returns it; `onDelete` is read and not used. */
  datatype ForeignKey = ForeignKey(src: string, srcCol: string, dst: string, dstCol: string, onDelete: string)

  const PARTITION_PREFIXES := ["usage_records_y", "analytics_events_y", "event_log_y", "audit_log_y"]
  const PARTITION_DEFAULTS := ["usage_records_default", "analytics_events_default", "event_log_default", "audit_log_default"]

  predicate IsPartitionChild(table: string) {
    table in PARTITION_DEFAULTS || exists p :: p in PARTITION_PREFIXES && p <= table
  }

  /** The keys that are printed at all. */
  predicate Wanted(f: ForeignKey) {
    && !IsPartitionChild(f.src) && !IsPartitionChild(f.dst)
    && !Starts(f.src, '_') && !Starts(f.dst, '_')
  }

  /** What `seen` holds of a key. */
  function Shape(f: ForeignKey): ForeignKey {
    f.(onDelete := "")
  }

  function Kept(fks: seq<ForeignKey>): seq<ForeignKey> {
    if fks == [] then []
    else
      var kept, f := Kept(fks[..|fks| - 1]), fks[|fks| - 1];
      if Wanted(f) && Shape(f) !in kept then kept + [Shape(f)] else kept
  }

  const FENCE := "```"

  function Title(): string {
    "# Generated ERD (from implemented schema)"
  }

  function Note(): string {
    "_" + "Auto-generated by `scripts/regenerate_erd.py` — diff against `docs/database/ERD.md`._"
  }

  const HEADER: seq<string> := [Title(), "", Note(), "", "```mermaid", "erDiagram"]

  function EntityLine(table: string): string {
    "  " + (table + " { }")
  }

  function EdgeLine(f: ForeignKey): string {
    "  " + (f.dst + (" ||--o{ " + (f.src + (" : " + f.srcCol))))
  }

  function EdgeOf(f: ForeignKey): Edge {
    Edge(f.dst, f.src, f.srcCol)
  }

  function EntityLines(tables: seq<string>): seq<string> {
    seq(|tables|, i requires 0 <= i < |tables| => EntityLine(tables[i]))
  }

  function EdgeLines(fks: seq<ForeignKey>): seq<string> {
    seq(|fks|, i requires 0 <= i < |fks| => EdgeLine(fks[i]))
  }

  function Printed(tables: seq<string>, fks: seq<ForeignKey>): seq<string> {
    HEADER + EntityLines(tables) + EdgeLines(Kept(fks)) + [FENCE]
  }

  lemma KeptNext(fks: seq<ForeignKey>, i: nat)
    requires i < |fks|
    ensures Kept(fks[..i + 1]) ==
            Kept(fks[..i]) + if Wanted(fks[i]) && Shape(fks[i]) !in Kept(fks[..i]) then [Shape(fks[i])] else []
  {
    assert fks[..i + 1][..i] == fks[..i];
  }

  lemma ShapePrintsTheSame(f: ForeignKey)
    ensures EdgeLine(Shape(f)) == EdgeLine(f)
  {
  }

  lemma WantedIff(f: ForeignKey)
    ensures Wanted(f) <==>
              !IsPartitionChild(f.src) && !IsPartitionChild(f.dst) && !Starts(f.src, '_') && !Starts(f.dst, '_')
  {
  }

  /** The line-emitting part of `main`. */
  method PrintErd(tables: seq<string>, fks: seq<ForeignKey>) returns (lines: seq<string>, seen: set<ForeignKey>)
    ensures lines == Printed(tables, fks)
    ensures seen == AsSet(Kept(fks))
  {
    hide EntityLine, EdgeLine, IsPartitionChild, HEADER;
    lines := HEADER;
    for i := 0 to |tables|
      invariant lines == HEADER + EntityLines(tables[..i])
    {
      assert EntityLines(tables[..i + 1]) == EntityLines(tables[..i]) + [EntityLine(tables[i])];
      lines := lines + [EntityLine(tables[i])];
    }
    assert tables[..|tables|] == tables;
    seen := {};
    assert Kept(fks[..0]) == [];
    hide Kept, Wanted, Starts, EntityLines;
    for i := 0 to |fks|
      invariant seen == AsSet(Kept(fks[..i]))
      invariant lines == HEADER + EntityLines(tables) + EdgeLines(Kept(fks[..i]))
    {
      var f := fks[i];
      KeptNext(fks, i);
      WantedIff(f);
      if IsPartitionChild(f.src) || IsPartitionChild(f.dst) {
        continue;
      }
      if Starts(f.src, '_') || Starts(f.dst, '_') {
        continue;
      }
      if Shape(f) in seen {
        continue;
      }
      ghost var kept := Kept(fks[..i]);
      ShapePrintsTheSame(f);
      assert EdgeLines(kept + [Shape(f)]) == EdgeLines(kept) + [EdgeLine(f)];
      seen := seen + {Shape(f)};
      lines := lines + [EdgeLine(f)];
    }
    assert fks[..|fks|] == fks;
    lines := lines + [FENCE];
  }

  // ---- Reading ---------------------------------------------------------------------------------------------

  datatype Diagram = Diagram(entities: set<string>, edges: set<Edge>)

  datatype Kind = FenceOpen | FenceClose | Entity(name: string) | Link(edge: Edge) | Nothing

  /** `str.rstrip`. */
  function TrimEnd(s: string): string {
    if s != "" && IsSpace(s[|s| - 1]) then TrimEnd(s[..|s| - 1]) else s
  }

  /** What a line is, by the tests of `parse_erd` in their order. The fences count anywhere, the rest
      only inside a block. */
  function KindOf(raw: string): Kind {
    var line := TrimEnd(raw);
    if "```mermaid" <= Skip(line) then FenceOpen
    else if Skip(line) == FENCE then FenceClose
    else if ScanEmptyEntity(line).Some? then Entity(ScanEmptyEntity(line).value)
    else if ScanOpenEntity(line).Some? && '}' !in line then Entity(ScanOpenEntity(line).value)
    else if ScanEdge(line).Some? then Link(ScanEdge(line).value)
    else Nothing
  }

  function Added(d: Diagram, k: Kind): Diagram {
    match k
    case Entity(name) => d.(entities := d.entities + {name})
    case Link(e) => Diagram(d.entities + {e.parent, e.child}, d.edges + {e})
    case _ => d
  }

  predicate InsideAfter(lines: seq<string>) {
    if lines == [] then false
    else
      match KindOf(lines[|lines| - 1])
      case FenceOpen => true
      case FenceClose => false
      case _ => InsideAfter(lines[..|lines| - 1])
  }

  function Parsed(lines: seq<string>): Diagram {
    if lines == [] then Diagram({}, {})
    else
      var front := lines[..|lines| - 1];
      if InsideAfter(front) then Added(Parsed(front), KindOf(lines[|lines| - 1])) else Parsed(front)
  }

  method ParseErd(lines: seq<string>) returns (d: Diagram)
    ensures d == Parsed(lines)
  {
    hide TrimEnd, Skip, ScanEmptyEntity, ScanOpenEntity, ScanEdge;
    var entities, edges, inside := {}, {}, false;
    for i := 0 to |lines|
      invariant Diagram(entities, edges) == Parsed(lines[..i])
      invariant inside == InsideAfter(lines[..i])
    {
      assert lines[..i + 1][..i] == lines[..i];
      var line := TrimEnd(lines[i]);
      if "```mermaid" <= Skip(line) {
        inside := true;
        continue;
      }
      if Skip(line) == FENCE {
        inside := false;
        continue;
      }
      if !inside {
        continue;
      }
      var empty := ScanEmptyEntity(line);
      if empty.Some? {
        entities := entities + {empty.value};
        continue;
      }
      var open := ScanOpenEntity(line);
      if open.Some? && '}' !in line {
        entities := entities + {open.value};
        continue;
      }
      var edge := ScanEdge(line);
      if edge.Some? {
        entities := entities + {edge.value.parent, edge.value.child};
        edges := edges + {edge.value};
      }
    }
    assert lines[..|lines|] == lines;
    d := Diagram(entities, edges);
  }

  // ---- Every document ----------------------------------------------------------------------------------------

  /** What is left once the spaces at the end are gone. */
  lemma {:induction false} TrimEndIff(raw: string, line: string)
    ensures TrimEnd(raw) == line <==>
              && line <= raw && (forall i :: |line| <= i < |raw| ==> IsSpace(raw[i]))
              && (line != "" ==> !IsSpace(line[|line| - 1]))
  {
    if raw != "" && IsSpace(raw[|raw| - 1]) {
      TrimEndIff(raw[..|raw| - 1], line);
      assert line != raw ==> (line <= raw <==> line <= raw[..|raw| - 1]);
    } else if line <= raw && line != raw {
      assert !IsSpace(raw[|raw| - 1]);
    }
  }

  predicate OpensFence(raw: string) {
    "```mermaid" <= Skip(TrimEnd(raw))
  }

  predicate ClosesFence(raw: string) {
    Skip(TrimEnd(raw)) == "```"
  }

  /** Line `i` stands in a block: a fence was opened above it and none closed since. */
  ghost predicate InBlock(lines: seq<string>, i: int) {
    && 0 <= i < |lines| && !OpensFence(lines[i])
    && exists j :: 0 <= j < i && OpensFence(lines[j]) && forall k :: j < k <= i ==> !ClosesFence(lines[k])
  }

  /** A line declares an entity by the expression for an empty one, or failing that for an opened one if it has
      no closing brace. */
  ghost predicate Declares(raw: string, name: string) {
    var line := TrimEnd(raw);
    IsEmptyEntity(line, name) || (IsOpenEntity(line, name) && '}' !in line && forall n :: !IsEmptyEntity(line, n))
  }

  /** It draws an edge by the expression for edges, if it declares nothing. */
  ghost predicate Draws(raw: string, e: Edge) {
    IsEdge(TrimEnd(raw), e) && forall n :: !Declares(raw, n)
  }

  lemma OpenIsNoClose(raw: string)
    ensures OpensFence(raw) ==> !ClosesFence(raw)
  {
  }

  lemma KindIff(raw: string)
    ensures KindOf(raw).FenceOpen? <==> OpensFence(raw)
    ensures KindOf(raw).FenceClose? <==> ClosesFence(raw)
    ensures !OpensFence(raw) && !ClosesFence(raw) ==>
              && (forall name :: KindOf(raw) == Entity(name) <==> Declares(raw, name))
              && (forall e :: KindOf(raw) == Link(e) <==> Draws(raw, e))
  {
    var line := TrimEnd(raw);
    hide IsEmptyEntity, IsOpenEntity, IsEdge, ScanEmptyEntity, ScanOpenEntity, ScanEdge, TrimEnd, Skip;
    forall name
      ensures ScanEmptyEntity(line) == Some(name) <==> IsEmptyEntity(line, name)
      ensures ScanOpenEntity(line) == Some(name) <==> IsOpenEntity(line, name)
    {
      EmptyEntityIff(line, name);
      OpenEntityIff(line, name);
    }
    forall e ensures ScanEdge(line) == Some(e) <==> IsEdge(line, e) {
      EdgeIff(line, e);
    }
    if ScanEmptyEntity(line).Some? {
      assert Declares(raw, ScanEmptyEntity(line).value);
    } else if ScanOpenEntity(line).Some? && '}' !in line {
      assert Declares(raw, ScanOpenEntity(line).value);
    }
  }

  /** Some line opened a fence and none closed one since. */
  ghost predicate OpenAtEnd(lines: seq<string>) {
    exists j :: 0 <= j < |lines| && OpensFence(lines[j]) && forall k :: j < k < |lines| ==> !ClosesFence(lines[k])
  }

  lemma OpenNext(front: seq<string>, last: string)
    ensures OpenAtEnd(front + [last]) <==> OpensFence(last) || (OpenAtEnd(front) && !ClosesFence(last))
  {
    OpenIsNoClose(last);
    hide OpensFence, ClosesFence;
    var lines, n := front + [last], |front|;
    assert lines[n] == last && forall k :: 0 <= k < n ==> lines[k] == front[k];
    if OpenAtEnd(front) && !ClosesFence(last) {
      var j :| 0 <= j < n && OpensFence(front[j]) && forall k :: j < k < n ==> !ClosesFence(front[k]);
      assert OpensFence(lines[j]);
    }
  }

  lemma {:induction false} InsideIff(lines: seq<string>)
    ensures InsideAfter(lines) <==> OpenAtEnd(lines)
  {
    if lines != [] {
      var front, last := lines[..|lines| - 1], lines[|lines| - 1];
      assert lines == front + [last];
      InsideIff(front);
      KindIff(last);
      OpenNext(front, last);
      hide KindOf, OpensFence, ClosesFence, Declares, Draws, OpenAtEnd;
    }
  }

  lemma {:induction false} InBlockIff(lines: seq<string>, i: nat)
    requires i < |lines|
    ensures InBlock(lines, i) <==> InsideAfter(lines[..i]) && !OpensFence(lines[i]) && !ClosesFence(lines[i])
  {
    InsideIff(lines[..i]);
    hide OpensFence, ClosesFence, InsideAfter;
    assert forall j :: 0 <= j < i ==> lines[..i][j] == lines[j];
  }

  ghost predicate EntityIn(lines: seq<string>, t: string, n: nat)
    requires n <= |lines|
  {
    exists i :: 0 <= i < n && InBlock(lines, i) &&
      (Declares(lines[i], t) || exists e :: Draws(lines[i], e) && (e.parent == t || e.child == t))
  }

  ghost predicate EdgeIn(lines: seq<string>, e: Edge, n: nat)
    requires n <= |lines|
  {
    exists i :: 0 <= i < n && InBlock(lines, i) && Draws(lines[i], e)
  }

  /** What a line that is no fence adds to a diagram. */
  lemma KindAdds(d: Diagram, raw: string)
    requires !OpensFence(raw) && !ClosesFence(raw)
    ensures var after := Added(d, KindOf(raw));
            && (forall t :: t in after.entities <==>
                  t in d.entities || Declares(raw, t) || exists e :: Draws(raw, e) && (e.parent == t || e.child == t))
            && (forall e :: e in after.edges <==> e in d.edges || Draws(raw, e))
  {
    KindIff(raw);
    hide KindOf, Declares, Draws, OpensFence, ClosesFence;
    if KindOf(raw).Link? {
      assert Draws(raw, KindOf(raw).edge);
    }
  }

  lemma FencesAdd(d: Diagram, raw: string)
    requires OpensFence(raw) || ClosesFence(raw)
    ensures Added(d, KindOf(raw)) == d
  {
    KindIff(raw);
    hide KindOf, Declares, Draws, OpensFence, ClosesFence;
  }

  lemma {:induction false} ParsedNext(lines: seq<string>, n: nat)
    requires n < |lines|
    ensures Parsed(lines[..n + 1]) ==
            if InsideAfter(lines[..n]) then Added(Parsed(lines[..n]), KindOf(lines[n])) else Parsed(lines[..n])
  {
    assert lines[..n + 1][..n] == lines[..n];
  }

  lemma {:induction false} LineAdds(lines: seq<string>, n: nat)
    requires n < |lines|
    ensures var before, after := Parsed(lines[..n]), Parsed(lines[..n + 1]);
            && (forall t :: t in after.entities <==>
                  || t in before.entities
                  || (InBlock(lines, n) &&
                       (Declares(lines[n], t) || exists e :: Draws(lines[n], e) && (e.parent == t || e.child == t))))
            && (forall e :: e in after.edges <==> e in before.edges || (InBlock(lines, n) && Draws(lines[n], e)))
  {
    ParsedNext(lines, n);
    InBlockIff(lines, n);
    hide KindOf, InBlock, Declares, Draws, OpensFence, ClosesFence, InsideAfter, Parsed, Added;
    if OpensFence(lines[n]) || ClosesFence(lines[n]) {
      FencesAdd(Parsed(lines[..n]), lines[n]);
    } else {
      KindAdds(Parsed(lines[..n]), lines[n]);
    }
  }

  /** What is read from any document, line by line and expression by expression: an entity is there exactly when
      a line of a block declares it or draws an edge to or from it, and an edge exactly when one draws it. */
  lemma {:induction false} ParsedIff(lines: seq<string>, n: nat)
    requires n <= |lines|
    ensures forall t :: t in Parsed(lines[..n]).entities <==> EntityIn(lines, t, n)
    ensures forall e :: e in Parsed(lines[..n]).edges <==> EdgeIn(lines, e, n)
  {
    if n > 0 {
      ParsedIff(lines, n - 1);
      LineAdds(lines, n - 1);
      hide Parsed, InBlock, Declares, Draws;
    } else {
      assert lines[..0] == [];
    }
  }

  // ---- Round trip ------------------------------------------------------------------------------------------

  lemma {:induction false} TrimSolid(s: string)
    requires s != "" && !IsSpace(s[|s| - 1])
    ensures TrimEnd(s) == s
  {
  }

  lemma {:induction false} SkipPrefix(a: string, rest: string)
    requires AllSpace(a) && rest != "" && !IsSpace(rest[0])
    ensures Skip(a + rest) == rest
  {
    assert (a + rest)[..|a|] == a && (a + rest)[|a|..] == rest;
    SkipAt(a + rest, |a|);
  }

  lemma {:induction false} WordPrefix(name: string, rest: string)
    requires Identifier(name) && (rest == "" || !IsWord(rest[0]))
    ensures Word(name + rest) == name && (name + rest)[|name|..] == rest && (name + rest)[0] == name[0] && !IsSpace(name[0])
  {
    assert (name + rest)[..|name|] == name;
    WordAt(name + rest, name);
  }

  /** How a printed line is read: two spaces, a name, and what follows. */
  lemma {:induction false} NameRead(name: string, rest: string)
    requires Identifier(name) && rest != "" && !IsWord(rest[0])
    ensures var line := "  " + (name + rest);
            Skip(line) == name + rest && Word(Skip(line)) == name && Skip(line)[|name|..] == rest
    ensures var s := Skip("  " + (name + rest)); s != "" && IsLetter(s[0])
  {
    hide Skip, Word;
    WordPrefix(name, rest);
    SkipPrefix("  ", name + rest);
  }

  lemma {:induction false} NotAFence(line: string)
    requires Skip(line) != "" && IsLetter(Skip(line)[0])
    ensures !("```mermaid" <= Skip(line)) && Skip(line) != FENCE
  {
    hide Skip;
  }

  lemma BracesRead()
    ensures Skip(" { }") == "{ }" && Skip("{ }"[1..]) == "}" && Close("}")
  {
    assert " { }" == " " + "{ }" && "{ }"[1..] == " " + "}";
    SkipPrefix(" ", "{ }");
    SkipPrefix(" ", "}");
  }

  lemma EntityLineRead(table: string)
    requires Identifier(table)
    ensures KindOf(EntityLine(table)) == Entity(table)
  {
    var line := EntityLine(table);
    assert line[|line| - 1] == '}';
    TrimSolid(line);
    hide Skip, Word, TrimEnd;
    NameRead(table, " { }");
    NotAFence(line);
    BracesRead();
  }

  lemma {:induction false} ColumnRead(col: string)
    requires Identifier(col)
    ensures ScanColon(Skip(" : " + col)) == Some(col)
  {
    assert " : " + col == " " + (": " + col) && (": " + col)[1..] == " " + col;
    SkipPrefix(" ", ": " + col);
    SkipPrefix(" ", col);
    assert col[..|col|] == col;
    SolidAt(col, |col|);
    hide Skip, Solid;
    assert Bare(col, col) && !Starts(col, '\"');
  }

  lemma ChildRead(src: string, col: string)
    requires Identifier(src) && Identifier(col)
    ensures ScanChild(" " + (src + (" : " + col))) == Some((src, col))
  {
    var rest := " : " + col;
    var s := " " + (src + rest);
    assert s[1..] == src + rest;
    hide Word, Skip, ScanColon;
    WordPrefix(src, rest);
    assert "" + (src + rest) == src + rest;
    SkipPrefix("", src + rest);
    ColumnRead(col);
  }

  /** The part of a printed edge after the parent's name. */
  function LinkPart(f: ForeignKey): string {
    " ||--o{ " + (f.src + (" : " + f.srcCol))
  }

  lemma LinkRead(f: ForeignKey)
    requires Identifier(f.src) && Identifier(f.srcCol)
    ensures ScanLink(LinkPart(f)) == Some((f.src, f.srcCol))
  {
    hide ScanChild;
    var child := " " + (f.src + (" : " + f.srcCol));
    var s := LinkPart(f);
    var connector := s[1..];
    assert connector == "||--" + ("o{" + child);
    assert connector[0] == '|';
    var glyphs := connector[4..];
    assert connector[..4] == "||--" && glyphs == "o{" + child;
    assert glyphs[..2] == "o{" && glyphs[2] == ' ' && glyphs[2..] == child;
    SolidAt(glyphs, 2);
    ChildRead(f.src, f.srcCol);
  }

  lemma {:induction false} NotAnEntity(line: string)
    requires Skip(Skip(line)[|Word(Skip(line))|..]) != "" && Skip(Skip(line)[|Word(Skip(line))|..])[0] == '|'
    ensures ScanEmptyEntity(line) == None && ScanOpenEntity(line) == None
  {
    hide Skip, Word;
  }

  lemma LinkPartShape(f: ForeignKey)
    ensures LinkPart(f) != "" && LinkPart(f)[0] == ' ' && Skip(LinkPart(f)) != "" && Skip(LinkPart(f))[0] == '|'
  {
    var rest := "||--o{ " + (f.src + (" : " + f.srcCol));
    assert LinkPart(f) == " " + rest;
    SkipPrefix(" ", rest);
  }

  lemma EdgeLineEnd(f: ForeignKey)
    requires Identifier(f.srcCol)
    ensures EdgeLine(f) == "  " + (f.dst + LinkPart(f)) && TrimEnd(EdgeLine(f)) == EdgeLine(f)
  {
    var line := EdgeLine(f);
    assert line[|line| - 1] == f.srcCol[|f.srcCol| - 1];
    TrimSolid(line);
  }

  lemma {:induction false} KindByScans(line: string)
    requires TrimEnd(line) == line && Skip(line) != "" && IsLetter(Skip(line)[0])
    requires ScanEmptyEntity(line) == None && ScanOpenEntity(line) == None
    ensures KindOf(line) == if ScanEdge(line).Some? then Link(ScanEdge(line).value) else Nothing
  {
    hide TrimEnd, Skip, ScanEmptyEntity, ScanOpenEntity, ScanEdge;
    NotAFence(line);
  }

  lemma EdgeScan(f: ForeignKey)
    requires Identifier(f.dst) && Identifier(f.src) && Identifier(f.srcCol)
    ensures ScanEdge("  " + (f.dst + LinkPart(f))) == Some(EdgeOf(f))
  {
    LinkPartShape(f);
    NameRead(f.dst, LinkPart(f));
    LinkRead(f);
    hide Skip, Word, LinkPart, ScanLink;
  }

  lemma EdgeIsNoEntity(f: ForeignKey)
    requires Identifier(f.dst)
    ensures var line := "  " + (f.dst + LinkPart(f));
            ScanEmptyEntity(line) == None && ScanOpenEntity(line) == None && Skip(line) != "" && IsLetter(Skip(line)[0])
  {
    LinkPartShape(f);
    hide Skip, Word, LinkPart, ScanEmptyEntity, ScanOpenEntity;
    NameRead(f.dst, LinkPart(f));
    NotAnEntity("  " + (f.dst + LinkPart(f)));
  }

  lemma EdgeLineRead(f: ForeignKey)
    requires Identifier(f.dst) && Identifier(f.src) && Identifier(f.srcCol)
    ensures KindOf(EdgeLine(f)) == Link(EdgeOf(f))
  {
    hide *;
    EdgeLineEnd(f);
    EdgeScan(f);
    EdgeIsNoEntity(f);
    KindByScans(EdgeLine(f));
  }

  ghost predicate Plain(tables: seq<string>, fks: seq<ForeignKey>) {
    && (forall t :: t in tables ==> Identifier(t))
    && (forall f :: f in fks && Wanted(f) ==> Identifier(f.src) && Identifier(f.dst) && Identifier(f.srcCol))
  }

  /** What is kept: each wanted shape, once. */
  lemma {:induction false} KeptIff(fks: seq<ForeignKey>)
    ensures Distinct(Kept(fks))
    ensures forall f :: f in Kept(fks) <==> exists g :: g in fks && Wanted(g) && Shape(g) == f
  {
    if fks != [] {
      var front, last := fks[..|fks| - 1], fks[|fks| - 1];
      hide Wanted;
      KeptIff(front);
      assert fks == front + [last];
      assert forall g :: g in fks <==> g in front || g == last;
    }
  }

  /** A table that appears in foreign keys: not private, and no partition by its name. */
  predicate IsShown(table: string) {
    && table !in {"usage_records_default", "analytics_events_default", "event_log_default", "audit_log_default"}
    && !("_" <= table) && !("usage_records_y" <= table) && !("analytics_events_y" <= table)
    && !("event_log_y" <= table) && !("audit_log_y" <= table)
  }

  lemma ShownIff(table: string)
    ensures IsShown(table) <==> !IsPartitionChild(table) && !Starts(table, '_')
  {
    assert PARTITION_PREFIXES[0] in PARTITION_PREFIXES && PARTITION_PREFIXES[1] in PARTITION_PREFIXES;
    assert PARTITION_PREFIXES[2] in PARTITION_PREFIXES && PARTITION_PREFIXES[3] in PARTITION_PREFIXES;
    assert PARTITION_DEFAULTS[0] in PARTITION_DEFAULTS && PARTITION_DEFAULTS[1] in PARTITION_DEFAULTS;
    assert PARTITION_DEFAULTS[2] in PARTITION_DEFAULTS && PARTITION_DEFAULTS[3] in PARTITION_DEFAULTS;
  }

  /** A key is printed exactly when the schema has it, under whatever delete rule, between tables that are
      shown. */
  lemma PrintedIff(fks: seq<ForeignKey>, src: string, srcCol: string, dst: string, dstCol: string)
    ensures ForeignKey(src, srcCol, dst, dstCol, "") in Kept(fks) <==>
              IsShown(src) && IsShown(dst) && exists rule :: ForeignKey(src, srcCol, dst, dstCol, rule) in fks
  {
    KeptIff(fks);
    ShownIff(src);
    ShownIff(dst);
    hide IsShown, IsPartitionChild, Kept;
    forall g | g in fks && Shape(g) == ForeignKey(src, srcCol, dst, dstCol, "")
      ensures g == ForeignKey(src, srcCol, dst, dstCol, g.onDelete)
    {
    }
    forall rule ensures Shape(ForeignKey(src, srcCol, dst, dstCol, rule)) == ForeignKey(src, srcCol, dst, dstCol, "") {
    }
  }

  /** The diagram a schema stands for. */
  function DiagramOf(tables: seq<string>, fks: seq<ForeignKey>): Diagram {
    Diagram(
      AsSet(tables) + (set f | f in Kept(fks) :: f.dst) + (set f | f in Kept(fks) :: f.src),
      set f | f in Kept(fks) :: EdgeOf(f))
  }

  // ---- Line by line ----------------------------------------------------------------------------------------

  lemma {:induction false} Outside(front: seq<string>, line: string)
    requires !InsideAfter(front) && !KindOf(line).FenceOpen?
    ensures !InsideAfter(front + [line]) && Parsed(front + [line]) == Parsed(front)
  {
    hide KindOf;
    assert (front + [line])[..|front|] == front;
  }

  lemma {:induction false} Fenced(front: seq<string>, line: string)
    requires KindOf(line).FenceOpen? || KindOf(line).FenceClose?
    ensures InsideAfter(front + [line]) == KindOf(line).FenceOpen? && Parsed(front + [line]) == Parsed(front)
  {
    hide KindOf;
    assert (front + [line])[..|front|] == front;
  }

  lemma {:induction false} Inside(front: seq<string>, line: string)
    requires InsideAfter(front) && !KindOf(line).FenceOpen? && !KindOf(line).FenceClose?
    ensures InsideAfter(front + [line]) && Parsed(front + [line]) == Added(Parsed(front), KindOf(line))
  {
    hide KindOf;
    assert (front + [line])[..|front|] == front;
  }

  lemma {:induction false} TrimKeepsHead(s: string)
    requires s != "" && !IsSpace(s[0])
    ensures TrimEnd(s) != "" && TrimEnd(s)[0] == s[0]
  {
    if IsSpace(s[|s| - 1]) {
      TrimKeepsHead(s[..|s| - 1]);
    }
  }

  lemma {:induction false} SkipNothing(s: string)
    requires s != "" && !IsSpace(s[0])
    ensures Skip(s) == s
  {
  }

  lemma LooseLine(line: string)
    requires line != "" ==> !IsSpace(line[0]) && line[0] != '`'
    ensures !KindOf(line).FenceOpen?
  {
    if line != "" {
      TrimKeepsHead(line);
      SkipNothing(TrimEnd(line));
      hide TrimEnd, Skip, ScanEmptyEntity, ScanOpenEntity, ScanEdge;
    }
  }

  lemma FencesRead()
    ensures KindOf("```mermaid") == FenceOpen && KindOf(FENCE) == FenceClose
  {
    TrimSolid("```mermaid");
    TrimSolid(FENCE);
    SkipNothing("```mermaid");
    SkipNothing(FENCE);
    hide TrimEnd, Skip, ScanEmptyEntity, ScanOpenEntity, ScanEdge;
  }

  lemma {:induction false} NameAlone(line: string)
    requires Skip(line) == line && Word(line) == line
    ensures ScanEmptyEntity(line) == None && ScanOpenEntity(line) == None && ScanEdge(line) == None
  {
    SkipAll("");
    AtTheEnd();
    assert line[|line|..] == "";
    hide Skip, Word, Open, Close, ScanLink, Starts, Identifier;
  }

  lemma AtTheEnd()
    ensures !Open("") && !Starts("", '{') && ScanLink("") == None
  {
  }

  lemma DiagramWord()
    ensures KindOf("erDiagram") == Nothing
  {
    var line := "erDiagram";
    TrimSolid(line);
    SkipNothing(line);
    assert Identifier(line) && line + "" == line;
    hide TrimEnd, Skip, Word, KindOf, ScanEmptyEntity, ScanOpenEntity, ScanEdge;
    WordPrefix(line, "");
    NameAlone(line);
    KindByScans(line);
  }

  lemma TitleRead()
    ensures Title() != "" && !IsSpace(Title()[0]) && Title()[0] != '`'
  {
  }

  lemma NoteRead()
    ensures Note() != "" && !IsSpace(Note()[0]) && Note()[0] != '`'
  {
  }

  lemma HeaderRead()
    ensures InsideAfter(HEADER) && Parsed(HEADER) == Diagram({}, {})
  {
    TitleRead();
    NoteRead();
    hide KindOf, Title, Note;
    LooseLine(Title());
    LooseLine(Note());
    LooseLine("");
    Outside([], Title());
    Outside([] + [Title()], "");
    var three := [] + [Title()] + [""];
    Outside(three, Note());
    Outside(three + [Note()], "");
    FencesRead();
    var four := three + [Note()] + [""];
    Fenced(four, "```mermaid");
    DiagramWord();
    hide InsideAfter, Parsed;
    Inside(four + ["```mermaid"], "erDiagram");
    assert HEADER == four + ["```mermaid"] + ["erDiagram"];
  }

  lemma {:induction false} EntitiesRead(front: seq<string>, tables: seq<string>)
    requires InsideAfter(front) && forall t :: t in tables ==> Identifier(t)
    ensures InsideAfter(front + EntityLines(tables))
    ensures Parsed(front + EntityLines(tables)) == Parsed(front).(entities := Parsed(front).entities + AsSet(tables))
  {
    hide KindOf, EntityLine, Identifier;
    if tables == [] {
      assert front + EntityLines(tables) == front;
    } else {
      var rest, last := tables[..|tables| - 1], tables[|tables| - 1];
      assert tables == rest + [last];
      EntitiesRead(front, rest);
      EntityLineRead(last);
      Inside(front + EntityLines(rest), EntityLine(last));
      assert front + EntityLines(tables) == front + EntityLines(rest) + [EntityLine(last)];
    }
  }

  /** What edges add to a diagram. */
  function WithEdges(d: Diagram, fks: seq<ForeignKey>): Diagram {
    Diagram(
      d.entities + (set f | f in fks :: f.dst) + (set f | f in fks :: f.src),
      d.edges + set f | f in fks :: EdgeOf(f))
  }

  lemma {:induction false} EdgesRead(front: seq<string>, fks: seq<ForeignKey>)
    requires InsideAfter(front)
    requires forall f :: f in fks ==> Identifier(f.src) && Identifier(f.dst) && Identifier(f.srcCol)
    ensures InsideAfter(front + EdgeLines(fks))
    ensures Parsed(front + EdgeLines(fks)) == WithEdges(Parsed(front), fks)
  {
    hide KindOf, EdgeLine, Identifier;
    if fks == [] {
      assert front + EdgeLines(fks) == front;
    } else {
      var rest, last := fks[..|fks| - 1], fks[|fks| - 1];
      assert fks == rest + [last];
      EdgesRead(front, rest);
      EdgeLineRead(last);
      Inside(front + EdgeLines(rest), EdgeLine(last));
      assert front + EdgeLines(fks) == front + EdgeLines(rest) + [EdgeLine(last)];
      WithOneMore(Parsed(front), rest, last);
    }
  }

  lemma WithOneMore(d: Diagram, fks: seq<ForeignKey>, f: ForeignKey)
    ensures WithEdges(d, fks + [f]) == Added(WithEdges(d, fks), Link(EdgeOf(f)))
  {
    assert forall g :: g in fks + [f] <==> g in fks || g == f;
  }

  /** Reading what was printed gives the schema back: the tables with the endpoints of every kept key,
      and exactly one edge per kept parent, child and column. */
  lemma RoundTrip(tables: seq<string>, fks: seq<ForeignKey>)
    requires Plain(tables, fks)
    ensures Parsed(Printed(tables, fks)) == DiagramOf(tables, fks)
  {
    hide InsideAfter, Parsed, KindOf, EdgeLine, EntityLine, Identifier, Wanted;
    HeaderRead();
    EntitiesRead(HEADER, tables);
    KeptIff(fks);
    EdgesRead(HEADER + EntityLines(tables), Kept(fks));
    FencesRead();
    Fenced(HEADER + EntityLines(tables) + EdgeLines(Kept(fks)), FENCE);
  }

  // ---- Drift -----------------------------------------------------------------------------------------------

  function Pairs(d: Diagram): set<(string, string)> {
    set e | e in d.edges :: (e.parent, e.child)
  }

  /** The exit code of the comparison: entities must agree, and every edge the design draws, labels
      aside, must be there. */
  function Verdict(generated: Diagram, design: Diagram): nat {
    if generated.entities - design.entities != {} || design.entities - generated.entities != {}
       || Pairs(design) - Pairs(generated) != {} then 1 else 0
  }

  lemma VerdictIff(generated: Diagram, design: Diagram)
    ensures Verdict(generated, design) == 0 <==>
              generated.entities == design.entities && Pairs(design) <= Pairs(generated)
  {
    DiffEmpty(generated.entities, design.entities);
    DiffEmpty(design.entities, generated.entities);
    DiffEmpty(Pairs(design), Pairs(generated));
  }

  lemma DiffEmpty<T>(a: set<T>, b: set<T>)
    ensures a - b == {} <==> a <= b
  {
    assert forall x :: x in a - b <==> x in a && x !in b;
  }

  ghost predicate Drawn(fks: seq<ForeignKey>, parent: string, child: string) {
    exists f :: f in fks && Wanted(f) && f.dst == parent && f.src == child
  }

  lemma EntitiesOf(tables: seq<string>, fks: seq<ForeignKey>, t: string)
    ensures t in DiagramOf(tables, fks).entities <==>
              t in tables || exists f :: f in fks && Wanted(f) && (f.dst == t || f.src == t)
  {
    KeptIff(fks);
    hide Wanted, Kept;
    if f :| f in fks && Wanted(f) && (f.dst == t || f.src == t) {
      assert Shape(f) in Kept(fks);
    }
  }

  lemma PairsOf(tables: seq<string>, fks: seq<ForeignKey>, parent: string, child: string)
    ensures (parent, child) in Pairs(DiagramOf(tables, fks)) <==> Drawn(fks, parent, child)
  {
    KeptIff(fks);
    hide Wanted, Kept;
    if Drawn(fks, parent, child) {
      var f :| f in fks && Wanted(f) && f.dst == parent && f.src == child;
      assert Shape(f) in Kept(fks) && EdgeOf(Shape(f)) in DiagramOf(tables, fks).edges;
    }
  }

  /** No drift, in terms of the schema itself: the design names the tables and the endpoints of the
      keys that are kept, and each edge it draws is a key between those two tables. */
  lemma NoDriftIff(tables: seq<string>, fks: seq<ForeignKey>, design: Diagram)
    requires Plain(tables, fks)
    ensures Verdict(Parsed(Printed(tables, fks)), design) == 0 <==>
              && (forall t :: t in design.entities <==>
                    t in tables || exists f :: f in fks && Wanted(f) && (f.dst == t || f.src == t))
              && (forall e :: e in design.edges ==> Drawn(fks, e.parent, e.child))
  {
    RoundTrip(tables, fks);
    var generated := DiagramOf(tables, fks);
    VerdictIff(generated, design);
    forall t ensures t in generated.entities <==> t in tables || exists f :: f in fks && Wanted(f) && (f.dst == t || f.src == t) {
      EntitiesOf(tables, fks, t);
    }
    forall parent, child ensures (parent, child) in Pairs(generated) <==> Drawn(fks, parent, child) {
      PairsOf(tables, fks, parent, child);
    }
    hide Printed, Parsed, Wanted, DiagramOf, Drawn, Verdict;
    assert forall e :: e in design.edges ==> (e.parent, e.child) in Pairs(design);
  }

  /** Adding foreign keys between tables already drawn never causes drift. */
  lemma AddingKeysNeverDrifts(tables: seq<string>, fks: seq<ForeignKey>, more: seq<ForeignKey>, design: Diagram)
    requires Plain(tables, fks + more)
    requires Verdict(Parsed(Printed(tables, fks)), design) == 0
    requires forall f :: f in more && Wanted(f) ==> f.src in tables && f.dst in tables
    ensures Verdict(Parsed(Printed(tables, fks + more)), design) == 0
  {
    hide Printed, Parsed, Verdict, Wanted, Identifier;
    assert Plain(tables, fks);
    NoDriftIff(tables, fks, design);
    NoDriftIff(tables, fks + more, design);
    forall e | e in design.edges ensures Drawn(fks + more, e.parent, e.child) {
      var f :| f in fks && Wanted(f) && f.dst == e.parent && f.src == e.child;
      assert f in fks + more;
    }
    forall t ensures (exists f :: f in fks + more && Wanted(f) && (f.dst == t || f.src == t)) && t !in tables
                ==> exists f :: f in fks && Wanted(f) && (f.dst == t || f.src == t) {
    }
  }
}
