/** `GetDisplayPath` (sqliterc/schema_extractor.py): the path of a file
    entry as it is shown, its segments joined by slashes and the name of a
    data stream after a colon.

    The translation of non-printable characters is a parameter,
    `translate`, applied to every segment and to the stream name. */
module DisplayPath {
  import opened Wrappers
  import opened PyStrings

  function TranslateAll(segments: seq<string>, translate: string -> string): (r: seq<string>)
    ensures |r| == |segments|
    ensures forall k :: 0 <= k < |segments| ==> r[k] == translate(segments[k])
  {
    if segments == [] then [] else [translate(segments[0])] + TranslateAll(segments[1..], translate)
  }

  /** The path to display: the translated segments joined by slashes, a colon
      and the translated stream name when a non-empty one is given, and the
      root "/" when all of that is empty. */
  function GetDisplayPath(pathSegments: seq<string>, dataStreamName: Option<string>, translate: string -> string): (r: string)
    ensures r != []
    ensures (dataStreamName.None? || dataStreamName.value == []) ==>
              (Join(TranslateAll(pathSegments, translate), "/") == [] ==> r == "/")
  {
    var displayPath := Join(TranslateAll(pathSegments, translate), "/");
    var shown :=
      if dataStreamName.Some? && dataStreamName.value != [] then displayPath + ":" + translate(dataStreamName.value)
      else displayPath;
    if shown == [] then "/" else shown
  }

  /** Without a stream name, splitting the displayed path at its slashes
      gives back the translated segments, as long as they hold no slash and
      do not all join to the empty path. */
  lemma DisplayPathSegments(pathSegments: seq<string>, dataStreamName: Option<string>, translate: string -> string)
    requires dataStreamName.None? || dataStreamName.value == []
    requires pathSegments != []
    requires forall k :: 0 <= k < |pathSegments| ==> '/' !in translate(pathSegments[k])
    requires Join(TranslateAll(pathSegments, translate), "/") != []
    ensures Split(GetDisplayPath(pathSegments, dataStreamName, translate), '/') == TranslateAll(pathSegments, translate)
  {
    SplitJoin(TranslateAll(pathSegments, translate), '/');
  }

  /** With a non-empty stream name, the text after the last colon is the
      translated stream name, when that holds no colon. */
  lemma DisplayPathStream(pathSegments: seq<string>, dataStreamName: string, translate: string -> string)
    requires dataStreamName != []
    requires ':' !in translate(dataStreamName)
    ensures var fields := Split(GetDisplayPath(pathSegments, Some(dataStreamName), translate), ':');
            fields[|fields| - 1] == translate(dataStreamName)
  {
    var displayPath := Join(TranslateAll(pathSegments, translate), "/");
    SplitAppend(displayPath, ':', translate(dataStreamName));
    assert displayPath + ":" + translate(dataStreamName) == displayPath + [':'] + translate(dataStreamName);
  }

  /** With a non-empty stream name, the displayed path splits at its colon
      into the joined path and the translated stream name, and the joined
      path splits back into the translated segments, as long as neither
      holds a colon and the segments hold no slash. */
  lemma DisplayPathWithStream(pathSegments: seq<string>, dataStreamName: string, translate: string -> string)
    requires pathSegments != [] && dataStreamName != []
    requires ':' !in translate(dataStreamName)
    requires forall k :: 0 <= k < |pathSegments| ==> ':' !in translate(pathSegments[k]) && '/' !in translate(pathSegments[k])
    ensures var fields := Split(GetDisplayPath(pathSegments, Some(dataStreamName), translate), ':');
            |fields| == 2 && Split(fields[0], '/') == TranslateAll(pathSegments, translate)
            && fields[1] == translate(dataStreamName)
  {
    var segments := TranslateAll(pathSegments, translate);
    var displayPath := Join(segments, "/");
    var stream := translate(dataStreamName);
    JoinAvoids(segments, "/", ':');
    assert displayPath + ":" + stream == displayPath + [':'] + stream;
    SplitAt(displayPath, ':', stream);
    assert Split(stream, ':') == [stream];
    SplitJoin(segments, '/');
  }
}
