/**
 * The `when_rendering(:console)` block of the `node status` action: each
 * status hash becomes a block of lines, and the blocks are joined with a
 * blank line between them.
 */
module ConsoleRender {
  import opened Records
  import opened RubyText

  /** A hash whose only key is `name` was made for a 404 and renders as a placeholder. */
  predicate IsPlaceholder(r: Record)
    ensures IsPlaceholder(r) ==>
              !Truthy(Get(r, "deactivated")) && !Truthy(Get(r, "catalog_timestamp")) && !Truthy(Get(r, "facts_timestamp"))
  {
    r.Keys == {"name"}
  }

  /** The line for an optional field: `present` followed by the value when it is truthy, else `absent`. */
  function FieldLine(r: Record, key: string, present: string, absent: string): (line: string)
    ensures line == if key !in r || r[key] == Null || r[key] == Bool(false) then absent else present + ToS(r[key])
  {
    if Truthy(Get(r, key)) then present + ToS(Get(r, key)) else absent
  }

  /** The `lines` array the block builds for one status hash. */
  function StatusLines(r: Record): (ls: seq<string>)
    ensures |ls| == (if IsPlaceholder(r) then 2 else 4)
    ensures ls[0] == ToS(Get(r, "name"))
    ensures IsPlaceholder(r) <==> ls[1] == "No information known"
  {
    var name := ToS(Get(r, "name"));
    if IsPlaceholder(r) then
      [name, "No information known"]
    else
      var deactivation := FieldLine(r, "deactivated", "Deactivated at ", "Currently active");
      assert deactivation != "No information known" by {
        assert deactivation[0] == 'D' || deactivation[0] == 'C';
      }
      [name,
       deactivation,
       FieldLine(r, "catalog_timestamp", "Last catalog: ", "No catalog received"),
       FieldLine(r, "facts_timestamp", "Last facts: ", "No facts received")]
  }

  /** `lines.join("\n")` for one status hash. */
  function Block(r: Record): (b: string)
    ensures |b| > 0
  {
    Join(StatusLines(r), "\n")
  }

  /** Every block opens with the name line. */
  lemma BlockStartsWithName(r: Record)
    ensures var name, b := ToS(Get(r, "name")), Block(r); |b| > |name| && b[..|name|] == name && b[|name|] == '\n'
  {
    var ls := StatusLines(r);
    assert Block(r) == ls[0] + "\n" + Join(ls[1..], "\n");
  }

  function Blocks(rs: seq<Record>): (bs: seq<string>)
    ensures |bs| == |rs|
  {
    seq(|rs|, i requires 0 <= i < |rs| => Block(rs[i]))
  }

  /** The whole console output: the blocks, in input order, joined by "\n\n". */
  function Render(rs: seq<Record>): (out: string)
    ensures out == "" <==> |rs| == 0
  {
    Join(Blocks(rs), "\n\n")
  }

  /** An empty result list renders as the empty text. */
  lemma RenderEmpty()
    ensures Render([]) == ""
  {
  }

  /** A single status renders as its own block and nothing else. */
  lemma RenderSingle(r: Record)
    ensures Render([r]) == Block(r)
  {
  }

  /** Rendering two non-empty lists one after the other puts exactly one blank line between them. */
  lemma {:induction false} RenderConcat(a: seq<Record>, b: seq<Record>)
    requires |a| > 0 && |b| > 0
    ensures Render(a + b) == Render(a) + "\n\n" + Render(b)
  {
    assert Blocks(a + b) == Blocks(a) + Blocks(b);
    JoinConcat(Blocks(a), Blocks(b), "\n\n");
  }

  /** A placeholder renders as its name, a newline and "No information known". */
  lemma PlaceholderBlock(r: Record)
    requires IsPlaceholder(r)
    ensures Block(r) == ToS(r["name"]) + "\nNo information known"
  {
    assert "name" in r;
    JoinPair(ToS(r["name"]), "No information known", "\n");
  }

  /** The hash made for a 404 on `node` renders as `node` followed by "No information known". */
  lemma NotFoundRendering(node: string)
    ensures Render([NotFoundRecord(node)]) == node + "\nNo information known"
  {
    RenderSingle(NotFoundRecord(node));
    PlaceholderBlock(NotFoundRecord(node));
  }

  predicate SingleLine(s: string)
  {
    '\n' !in s
  }

  /** The texts a block interpolates contain no line feed. */
  predicate SingleLineFields(r: Record)
  {
    && SingleLine(ToS(Get(r, "name")))
    && SingleLine(ToS(Get(r, "deactivated")))
    && SingleLine(ToS(Get(r, "catalog_timestamp")))
    && SingleLine(ToS(Get(r, "facts_timestamp")))
  }

  /**
   * A status that is not a placeholder renders as four lines joined by line
   * feeds: the name, then the deactivation, catalog and facts lines, each
   * the phrasing `FieldLine` picks for its field.
   */
  lemma FullBlockJoin(r: Record)
    requires !IsPlaceholder(r)
    ensures Block(r) == ToS(Get(r, "name"))
                        + "\n" + FieldLine(r, "deactivated", "Deactivated at ", "Currently active")
                        + "\n" + FieldLine(r, "catalog_timestamp", "Last catalog: ", "No catalog received")
                        + "\n" + FieldLine(r, "facts_timestamp", "Last facts: ", "No facts received")
  {
    var ls := StatusLines(r);
    JoinPair(ls[2], ls[3], "\n");
    assert ls[1..][1..] == [ls[2], ls[3]];
    assert Join(ls[1..], "\n") == ls[1] + "\n" + (ls[2] + "\n" + ls[3]);
    assert Block(r) == ls[0] + "\n" + Join(ls[1..], "\n");
  }

  lemma {:induction false} StatusLinesSingle(r: Record)
    requires SingleLineFields(r)
    ensures forall i :: 0 <= i < |StatusLines(r)| ==> '\n' !in StatusLines(r)[i]
  {
    var ls := StatusLines(r);
    if !IsPlaceholder(r) {
      var keys := ["deactivated", "catalog_timestamp", "facts_timestamp"];
      var prefixes := ["Deactivated at ", "Last catalog: ", "Last facts: "];
      forall k | 0 <= k < 3 ensures '\n' !in prefixes[k] + ToS(Get(r, keys[k])) {
        assert '\n' !in prefixes[k];
      }
    }
  }

  /**
   * A status that is not a placeholder renders as exactly four lines: the
   * name, then one of two fixed phrasings for each of the deactivation,
   * catalog and facts fields, the second chosen when the field is absent,
   * `nil` or `false`.
   */
  lemma {:induction false} FullBlockLines(r: Record)
    requires !IsPlaceholder(r) && SingleLineFields(r)
    ensures Pieces(Block(r), '\n') == [
              ToS(Get(r, "name")),
              if Truthy(Get(r, "deactivated")) then "Deactivated at " + ToS(r["deactivated"]) else "Currently active",
              if Truthy(Get(r, "catalog_timestamp")) then "Last catalog: " + ToS(r["catalog_timestamp"]) else "No catalog received",
              if Truthy(Get(r, "facts_timestamp")) then "Last facts: " + ToS(r["facts_timestamp"]) else "No facts received"]
  {
    StatusLinesSingle(r);
    PiecesOfJoin(StatusLines(r), '\n');
  }

  /** Each status's lines, in input order. */
  function LineGroups(rs: seq<Record>): (groups: seq<seq<string>>)
    ensures |groups| == |rs|
  {
    seq(|rs|, i requires 0 <= i < |rs| => StatusLines(rs[i]))
  }

  /** The lines of the whole output: each status's lines, with an empty line between statuses. */
  function OutputLines(rs: seq<Record>): seq<string>
    requires |rs| > 0
  {
    Separated(LineGroups(rs))
  }

  /** The output is all the statuses' lines, with an empty line between statuses, joined by line feeds. */
  lemma RenderJoinsLines(rs: seq<Record>)
    requires |rs| > 0
    ensures Render(rs) == Join(OutputLines(rs), "\n")
  {
    var groups := LineGroups(rs);
    assert Blocks(rs) == JoinEach(groups, "\n");
    JoinGroups(groups, '\n');
  }

  lemma OutputLinesSingle(rs: seq<Record>)
    requires |rs| > 0
    requires forall i :: 0 <= i < |rs| ==> SingleLineFields(rs[i])
    ensures forall j :: 0 <= j < |OutputLines(rs)| ==> '\n' !in OutputLines(rs)[j]
  {
    var groups := LineGroups(rs);
    forall i, j | 0 <= i < |groups| && 0 <= j < |groups[i]| ensures '\n' !in groups[i][j] {
      StatusLinesSingle(rs[i]);
    }
    SeparatedAvoids(groups, '\n');
  }

  /**
   * Read line by line, the console output is the lines of the first status,
   * an empty line, the lines of the second, and so on, in input order.
   */
  lemma {:induction false} RenderedLines(rs: seq<Record>)
    requires |rs| > 0
    requires forall i :: 0 <= i < |rs| ==> SingleLineFields(rs[i])
    ensures Pieces(Render(rs), '\n') == OutputLines(rs)
  {
    RenderJoinsLines(rs);
    OutputLinesSingle(rs);
    PiecesOfJoin(OutputLines(rs), '\n');
  }

  /** An unknown node, rendered alone. */
  lemma UnknownNodeExample()
    ensures Render([map["name" := Str("web1")]]) == "web1\nNo information known"
  {
    NotFoundRendering("web1");
  }

  /** A known node with a catalog but no facts and no deactivation, rendered alone. */
  lemma KnownNodeExample()
    ensures Render([map["name" := Str("web2"), "catalog_timestamp" := Str("T1")]])
            == "web2" + "\n" + "Currently active" + "\n" + "Last catalog: T1" + "\n" + "No facts received"
  {
    var r := map["name" := Str("web2"), "catalog_timestamp" := Str("T1")];
    assert "catalog_timestamp" in r.Keys && r.Keys != {"name"};
    assert Get(r, "deactivated") == Null && Get(r, "facts_timestamp") == Null;
    assert FieldLine(r, "deactivated", "Deactivated at ", "Currently active") == "Currently active";
    assert FieldLine(r, "catalog_timestamp", "Last catalog: ", "No catalog received") == "Last catalog: T1";
    assert FieldLine(r, "facts_timestamp", "Last facts: ", "No facts received") == "No facts received";
    assert StatusLines(r) == ["web2", "Currently active", "Last catalog: T1", "No facts received"];
    RenderSingle(r);
    var tail := ["Last catalog: T1", "No facts received"];
    JoinPair("Last catalog: T1", "No facts received", "\n");
    assert ["Currently active"] + tail == ["Currently active", "Last catalog: T1", "No facts received"];
    JoinConcat(["Currently active"], tail, "\n");
    assert ["web2"] + (["Currently active"] + tail) == StatusLines(r);
    JoinConcat(["web2"], ["Currently active"] + tail, "\n");
    assert Block(r) == "web2" + "\n" + ("Currently active" + "\n" + ("Last catalog: T1" + "\n" + "No facts received"));
  }
}
