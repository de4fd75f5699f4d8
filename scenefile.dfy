// readScene: the header line of a scene file, then the binary or the
// ASCII reader it names. The bytes after the header are given both as the
// fields the binary reader sees and as the statements the ASCII reader
// sees; the header decides which reading is used.
module SceneLoading {
  import opened Optional
  import opened SceneRecords
  import opened SceneFiles
  import opened SceneReaders
  import opened SceneText

  /** The version number and the format word scanned from the header line. */
  datatype Header = Header(version: real, kind: string)

  /**
   * readScene: no scene when the header does not scan, when the file is
   * newer than this reader, or when the format word is neither "binary"
   * nor "ascii"; otherwise what the named reader returns.
   */
  function ReadSceneFile<B>(header: Option<Header>, binary: seq<Field>, text: seq<Entry<B>>, p: Parsers<B>): (r: Option<SceneIO>)
    ensures r.Some? ==> header.Some? && header.value.version <= THIS_VERSION
    ensures r.Some? ==> header.value.kind == "binary" || header.value.kind == "ascii"
  {
    if header.None? || header.value.version > THIS_VERSION then None
    else if header.value.kind == "binary" then DecodeScene(header.value.version, binary)
    else if header.value.kind == "ascii" then ReadEntries(text, p)
    else None
  }

  /** readScene, calling the binary or the ASCII reader loop. */
  method ReadScene<B>(header: Option<Header>, binary: seq<Field>, text: seq<Entry<B>>, p: Parsers<B>) returns (r: Option<SceneIO>)
    ensures r == ReadSceneFile(header, binary, text, p)
  {
    if header.None? {
      r := None;
    } else if header.value.version > THIS_VERSION {
      r := None;
    } else if header.value.kind == "binary" {
      r := ReadSceneB(header.value.version, binary);
    } else if header.value.kind == "ascii" {
      r := ReadSceneA(text, p);
    } else {
      r := None;
    }
  }

  /** The header line writeSceneBinary writes. */
  const BinaryHeader := Header(THIS_VERSION, "binary")

  /** A file written by writeSceneBinary reads back as its scene, with the camera and polygon sets as the binary reader keeps them. */
  lemma BinaryFileRoundTrip<B>(sc: SceneIO, rest: seq<Field>, text: seq<Entry<B>>, p: Parsers<B>)
    requires NamesAreCStrings(sc.objects)
    ensures ReadSceneFile(Some(BinaryHeader), EncodeScene(sc) + rest, text, p) == Some(SceneAfterReading(sc))
  {
    SceneRoundTrip(sc, rest);
  }

  /** An ASCII file yields no scene exactly when one of its statements starts with an unknown keyword; otherwise it holds every statement's record. */
  lemma AsciiFileRead<B>(version: real, binary: seq<Field>, text: seq<Entry<B>>, p: Parsers<B>)
    requires version <= THIS_VERSION
    ensures var r := ReadSceneFile(Some(Header(version, "ascii")), binary, text, p);
      (r.None? <==> exists i :: 0 <= i < |text| && !IsKeyword(text[i].keyword))
      && (r.Some? ==> r.value == SceneIO(LastCamera(text, p), LightsOf(text, p), ObjectsOf(text, p)))
  {
    AbortsIffUnknownKeyword(text, p);
    ReadEntriesContents(text, p);
  }
}
