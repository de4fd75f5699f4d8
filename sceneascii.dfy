// The ASCII scene format: the object-name line of read_objectA and
// write_objectA, and the keyword loop of readSceneA. The bodies that follow
// each keyword are read with fscanf "%g" directives; they are parameters
// here (a Parsers value), and the loop's own behaviour is modelled.
module SceneText {
  import opened Vectors
  import opened Optional
  import opened SceneRecords

  // ---------------------------------------------------------------- names

  /** What a scanf directive returns: the text consumed into the buffer and the input after it. */
  datatype Scanned = Scanned(value: string, rest: string)

  /** The characters C's isspace accepts; a blank in a scanf format skips any run of them. */
  predicate IsSpace(c: char)
  {
    c == ' ' || c == '\t' || c == '\n' || c == '\r' || c == '\U{B}' || c == '\U{C}'
  }

  /** A blank in a scanf format: the input after its leading white space. */
  function SkipSpace(t: string): (r: string)
    ensures |r| <= |t| && r == t[|t| - |r|..]
    ensures |r| > 0 ==> !IsSpace(r[0])
    ensures forall i :: 0 <= i < |t| - |r| ==> IsSpace(t[i])
  {
    if |t| > 0 && IsSpace(t[0]) then SkipSpace(t[1..]) else t
  }

  /** The longest prefix of t holding no newline. */
  function LineOf(t: string): (r: string)
    ensures |r| <= |t| && r == t[..|r|]
    ensures '\n' !in r
    ensures |r| < |t| ==> t[|r|] == '\n'
  {
    if |t| == 0 || t[0] == '\n' then [] else [t[0]] + LineOf(t[1..])
  }

  /** The "%[^\n]" directive: the rest of the line; it fails on an empty match. */
  function ScanLine(t: string): (r: Option<Scanned>)
    ensures r.Some? <==> |t| > 0 && t[0] != '\n'
    ensures r.Some? ==> '\n' !in r.value.value && t == r.value.value + r.value.rest
  {
    var line := LineOf(t);
    if |line| == 0 then None else Some(Scanned(line, t[|line|..]))
  }

  /** The format " name %[^\n]": white space, the literal "name", white space, then the rest of the line. */
  function ScanNameLine(t: string): (r: Option<Scanned>)
  {
    var u := SkipSpace(t);
    if |u| < 4 || u[..4] != "name" then None
    else ScanLine(SkipSpace(u[4..]))
  }

  /**
   * read_objectA's reading of the scanned word: "NULL" is no name, a word
   * that starts and ends with a double quote is the text between them, and
   * anything else is reported and is no name as well. A lone quote is both
   * the first and the last character; the reader then keeps the empty name.
   */
  function ParseName(word: string): (r: Option<string>)
    ensures word == "NULL" ==> r.None?
    ensures r.Some? <==> 0 < |word| && word[0] == '"' && word[|word| - 1] == '"'
    ensures r.Some? && 2 <= |word| ==> word == "\"" + r.value + "\""
    ensures r.Some? && |word| == 1 ==> r.value == ""
  {
    if word == "NULL" then None
    else if 0 < |word| && word[0] == '"' && word[|word| - 1] == '"' then
      if |word| == 1 then Some("") else Some(word[1..|word| - 1])
    else None
  }

  /** The name line of write_objectA: "NULL" for no name, else the name in double quotes. */
  function WriteNameLine(name: Option<string>): string
  {
    "  name " + (if name.None? then "NULL" else "\"" + name.value + "\"") + "\n"
  }

  /** read_objectA's name: the scanned line, parsed; None when the scan itself fails. */
  function ReadNameLine(t: string): (r: Option<(Option<string>, string)>)
  {
    match ScanNameLine(t)
    case None => None
    case Some(word) => Some((ParseName(word.value), word.rest))
  }

  /** A name whose text holds no newline reads back as written, and the reader stops at the end of its line. */
  lemma NameLineRoundTrip(name: Option<string>, rest: string)
    requires name.Some? ==> '\n' !in name.value
    ensures ReadNameLine(WriteNameLine(name) + rest) == Some((name, "\n" + rest))
  {
    var word := if name.None? then "NULL" else "\"" + name.value + "\"";
    ScanWrittenLine(word, rest);
    if name.Some? {
      assert word[1..|word| - 1] == name.value;
    }
  }

  /** The name line scans to the word written after "name", up to the newline. */
  lemma ScanWrittenLine(word: string, rest: string)
    requires '\n' !in word && 0 < |word| && !IsSpace(word[0])
    ensures ScanNameLine("  name " + word + "\n" + rest) == Some(Scanned(word, "\n" + rest))
  {
    var t := "  name " + word + "\n" + rest;
    var u := "name " + (word + ("\n" + rest));
    assert t == "  " + u;
    SkipSpaceBlanks("  ", u);
    assert u[..4] == "name";
    assert u[4..] == " " + (word + ("\n" + rest));
    SkipSpaceBlanks(" ", word + ("\n" + rest));
    LineOfPrefix(word, "\n" + rest);
    assert (word + ("\n" + rest))[|word|..] == "\n" + rest;
  }

  /** Skipping white space drops a run of blanks and stops at the first other character. */
  lemma {:induction false} SkipSpaceBlanks(blanks: string, u: string)
    requires forall i :: 0 <= i < |blanks| ==> IsSpace(blanks[i])
    requires 0 < |u| && !IsSpace(u[0])
    ensures SkipSpace(blanks + u) == u
    decreases |blanks|
  {
    if |blanks| == 0 {
      assert blanks + u == u;
    } else {
      assert (blanks + u)[1..] == blanks[1..] + u;
      SkipSpaceBlanks(blanks[1..], u);
    }
  }

  /** The line of a newline-free word followed by a newline is the word. */
  lemma {:induction false} LineOfPrefix(word: string, rest: string)
    requires '\n' !in word && |rest| > 0 && rest[0] == '\n'
    ensures LineOf(word + rest) == word
    decreases |word|
  {
    if |word| == 0 {
      assert word + rest == rest;
    } else {
      assert (word + rest)[1..] == word[1..] + rest;
      LineOfPrefix(word[1..], rest);
    }
  }

  /**
   * write_objectA does not escape newlines: the reader stops at the first
   * one, so only the text before it is parsed, with no closing quote.
   */
  lemma NewlineNameCut(a: string, b: string, rest: string)
    requires '\n' !in a
    ensures ReadNameLine(WriteNameLine(Some(a + "\n" + b)) + rest) == Some((ParseName("\"" + a), "\n" + b + "\"\n" + rest))
  {
    var word := "\"" + a;
    var after := b + "\"\n" + rest;
    assert WriteNameLine(Some(a + "\n" + b)) + rest == "  name " + word + "\n" + after by {
      assert WriteNameLine(Some(a + "\n" + b)) == "  name " + ("\"" + (a + "\n" + b) + "\"") + "\n";
    }
    assert "\n" + after == "\n" + b + "\"\n" + rest;
    ScanWrittenLine(word, after);
  }

  /** So a name with a newline reads back as no name, or as the empty name when the newline comes first. */
  lemma NewlineNameLost(a: string, b: string, rest: string)
    requires '\n' !in a
    ensures ReadNameLine(WriteNameLine(Some(a + "\n" + b)) + rest).Some?
    ensures var read := ReadNameLine(WriteNameLine(Some(a + "\n" + b)) + rest).value.0;
      if a == "" then read == Some("") else (read.Some? <==> a[|a| - 1] == '"')
  {
    NewlineNameCut(a, b, rest);
    var word := "\"" + a;
    assert word[|word| - 1] == if a == "" then '"' else a[|a| - 1];
  }

  // ---------------------------------------------------------------- the keyword loop

  /** One statement of an ASCII scene: the keyword "%s" reads, and the body the record reader consumes. */
  datatype Entry<B> = Entry(keyword: string, body: B)

  /** The name and materials read_objectA reads at the head of an object body. */
  datatype ObjHead = ObjHead(name: Option<string>, material: seq<MaterialIO>)

  /** The fscanf readers of the record bodies, which the keyword loop calls. */
  datatype Parsers<!B> = Parsers(
    camera: B -> CameraIO,
    light: B -> LightIO,
    objectHead: B -> ObjHead,
    sphere: B -> SphereIO,
    polySet: B -> PolySetIO)

  predicate IsLightKeyword(w: string)
  {
    w == "point_light" || w == "directional_light" || w == "spot_light"
  }

  predicate IsObjectKeyword(w: string)
  {
    w == "sphere" || w == "poly_set"
  }

  /** The keywords readSceneA recognises. */
  predicate IsKeyword(w: string)
  {
    w == "camera" || IsLightKeyword(w) || IsObjectKeyword(w)
  }

  /**
   * The light a light statement appends: its type is set by the reader of
   * the keyword, and the fields that reader does not scan keep calloc's zeros.
   */
  function LightOf<B>(e: Entry<B>, p: Parsers<B>): (l: LightIO)
    requires IsLightKeyword(e.keyword)
    ensures e.keyword == "point_light" ==> l.kind == PointLightType && l.direction == Zero && l.dropOffRate == 0.0 && l.cutOffAngle == 0.0
    ensures e.keyword == "directional_light" ==> l.kind == DirectionalLightType && l.position == Zero && l.dropOffRate == 0.0 && l.cutOffAngle == 0.0
    ensures e.keyword == "spot_light" ==> l.kind == SpotLightType
    ensures l.color == p.light(e.body).color
  {
    var read := p.light(e.body);
    if e.keyword == "point_light" then LightIO(PointLightType, read.position, Zero, read.color, 0.0, 0.0)
    else if e.keyword == "directional_light" then LightIO(DirectionalLightType, Zero, read.direction, read.color, 0.0, 0.0)
    else LightIO(SpotLightType, read.position, read.direction, read.color, read.dropOffRate, read.cutOffAngle)
  }

  /** The object an object statement appends: the head read by read_objectA, and data of the keyword's type. */
  function ObjectOf<B>(e: Entry<B>, p: Parsers<B>): (o: ObjIO)
    requires IsObjectKeyword(e.keyword)
    ensures o.name == p.objectHead(e.body).name && o.material == p.objectHead(e.body).material
    ensures o.data.SphereData? <==> e.keyword == "sphere"
  {
    var head := p.objectHead(e.body);
    if e.keyword == "sphere" then ObjIO(head.name, head.material, SphereData(p.sphere(e.body)))
    else ObjIO(head.name, head.material, PolySetData(p.polySet(e.body)))
  }

  const EmptyScene := SceneIO(None, [], [])

  /** One iteration of readSceneA's loop; an unrecognised keyword aborts the read. */
  function Step<B>(sc: SceneIO, e: Entry<B>, p: Parsers<B>): (r: Option<SceneIO>)
    ensures r.Some? <==> IsKeyword(e.keyword)
  {
    if e.keyword == "camera" then Some(SceneIO(Some(p.camera(e.body)), sc.lights, sc.objects))
    else if IsLightKeyword(e.keyword) then Some(SceneIO(sc.camera, sc.lights + [LightOf(e, p)], sc.objects))
    else if IsObjectKeyword(e.keyword) then Some(SceneIO(sc.camera, sc.lights, sc.objects + [ObjectOf(e, p)]))
    else None
  }

  /** readSceneA over the statements es, starting from newScene's empty scene. */
  function ReadEntries<B>(es: seq<Entry<B>>, p: Parsers<B>): Option<SceneIO>
  {
    if |es| == 0 then Some(EmptyScene)
    else match ReadEntries(es[..|es| - 1], p)
      case None => None
      case Some(sc) => Step(sc, es[|es| - 1], p)
  }

  /** readSceneA: read keywords until the input ends, dispatching each to its record reader. */
  method ReadSceneA<B>(es: seq<Entry<B>>, p: Parsers<B>) returns (r: Option<SceneIO>)
    ensures r == ReadEntries(es, p)
  {
    var scene := EmptyScene;
    var i := 0;
    while i < |es|
      invariant 0 <= i <= |es|
      invariant ReadEntries(es[..i], p) == Some(scene)
    {
      assert es[..i + 1][..i] == es[..i];
      var next := Step(scene, es[i], p);
      if next.None? {
        EntriesFailOnward(es, i + 1, p);
        return None;
      }
      scene := next.value;
      i := i + 1;
    }
    assert es[..i] == es;
    return Some(scene);
  }

  /** A read that has aborted stays aborted whatever statements follow. */
  lemma {:induction false} EntriesFailOnward<B>(es: seq<Entry<B>>, i: nat, p: Parsers<B>)
    requires i <= |es| && ReadEntries(es[..i], p).None?
    ensures ReadEntries(es, p).None?
    decreases |es| - i
  {
    if i < |es| {
      assert es[..i + 1][..i] == es[..i];
      EntriesFailOnward(es, i + 1, p);
    } else {
      assert es[..i] == es;
    }
  }

  // ---------------------------------------------------------------- reference definitions

  /** The camera of the last camera statement: each one replaces the scene's camera. */
  function LastCamera<B>(es: seq<Entry<B>>, p: Parsers<B>): Option<CameraIO>
  {
    if |es| == 0 then None
    else if es[|es| - 1].keyword == "camera" then Some(p.camera(es[|es| - 1].body))
    else LastCamera(es[..|es| - 1], p)
  }

  /** The lights of the light statements, in file order. */
  function LightsOf<B>(es: seq<Entry<B>>, p: Parsers<B>): seq<LightIO>
  {
    if |es| == 0 then []
    else if IsLightKeyword(es[|es| - 1].keyword) then LightsOf(es[..|es| - 1], p) + [LightOf(es[|es| - 1], p)]
    else LightsOf(es[..|es| - 1], p)
  }

  /** The objects of the sphere and poly_set statements, in file order. */
  function ObjectsOf<B>(es: seq<Entry<B>>, p: Parsers<B>): seq<ObjIO>
  {
    if |es| == 0 then []
    else if IsObjectKeyword(es[|es| - 1].keyword) then ObjectsOf(es[..|es| - 1], p) + [ObjectOf(es[|es| - 1], p)]
    else ObjectsOf(es[..|es| - 1], p)
  }

  /** readSceneA returns NULL exactly when some statement's keyword is not recognised. */
  lemma {:induction false} AbortsIffUnknownKeyword<B>(es: seq<Entry<B>>, p: Parsers<B>)
    ensures ReadEntries(es, p).None? <==> exists i :: 0 <= i < |es| && !IsKeyword(es[i].keyword)
    decreases |es|
  {
    if |es| > 0 {
      var init := es[..|es| - 1];
      AbortsIffUnknownKeyword(init, p);
      if exists i :: 0 <= i < |init| && !IsKeyword(init[i].keyword) {
        var i :| 0 <= i < |init| && !IsKeyword(init[i].keyword);
        assert es[i] == init[i];
      }
      if exists i :: 0 <= i < |es| && !IsKeyword(es[i].keyword) {
        var i :| 0 <= i < |es| && !IsKeyword(es[i].keyword);
        assert i < |es| - 1 ==> init[i] == es[i];
      }
    }
  }

  /** A completed read holds the last camera, every light and every object of the file, in file order. */
  lemma {:induction false} ReadEntriesContents<B>(es: seq<Entry<B>>, p: Parsers<B>)
    ensures ReadEntries(es, p).Some? ==> ReadEntries(es, p).value == SceneIO(LastCamera(es, p), LightsOf(es, p), ObjectsOf(es, p))
    decreases |es|
  {
    if |es| > 0 {
      ReadEntriesContents(es[..|es| - 1], p);
    }
  }

  /** The number of lights read is the number of light statements. */
  lemma {:induction false} LightCount<B>(es: seq<Entry<B>>, p: Parsers<B>)
    ensures |LightsOf(es, p)| == |set i | 0 <= i < |es| && IsLightKeyword(es[i].keyword)|
    decreases |es|
  {
    if |es| > 0 {
      var init := es[..|es| - 1];
      LightCount(init, p);
      var before := set i | 0 <= i < |init| && IsLightKeyword(init[i].keyword);
      var after := set i | 0 <= i < |es| && IsLightKeyword(es[i].keyword);
      var last := if IsLightKeyword(es[|es| - 1].keyword) then {|es| - 1} else {};
      assert after == before + last by {
        forall i | 0 <= i < |init|
          ensures init[i] == es[i]
        {
        }
      }
      assert |after| == |before| + |last| by {
        assert before !! last;
      }
    }
  }
}
