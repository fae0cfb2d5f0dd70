/** `_GetDatabaseIdentifier` (sqliterc/schema_extractor.py): which known
    database a file is, found by matching the file's path segments against
    the path templates of the artifact definitions of the known databases.

    The known databases are what the extractor's constructor builds from the
    known-databases file and the artifact definitions; here they are an
    input, an ordered sequence of identifiers with their sources. */
module IdentifierMatcher {
  import opened Wrappers
  import opened PyStrings

  /** The type indicator of an artifact source; only the file system ones
      carry paths the matcher looks at. */
  datatype SourceType = DirectorySource | FileSource | PathSource | OtherSource

  /** An artifact source: its type, its path separator and its path
      templates, listed possibly more than once. */
  datatype Source = Source(sourceType: SourceType, separator: char, paths: seq<string>)

  /** A known database: its identifier and the sources of its artifact
      definition. */
  datatype KnownDatabase = KnownDatabase(identifier: string, sources: seq<Source>)

  predicate IsFileSystemSource(source: Source) {
    source.sourceType in {DirectorySource, FileSource, PathSource}
  }

  /** The segments of a path template: split at the separator, without the
      empty segment in front of a leading separator. */
  function TemplateSegments(path: string, separator: char): seq<string> {
    var segments := Split(path, separator);
    if segments[0] == [] then segments[1..] else segments
  }

  /** A `%variable%` segment: at least two characters, a percent sign at
      either end. */
  predicate IsVariable(segment: string) {
    |segment| >= 2 && segment[0] == '%' && segment[|segment| - 1] == '%'
  }

  /** The scan from the end for a variable segment, from the `index`-th last
      segment on; `segments[-index + 1:]` is what is kept when one is
      found. */
  function TrimFrom(segments: seq<string>, index: int): seq<string>
    requires 1 <= index
    decreases |segments| + 1 - index
  {
    if index > |segments| then segments
    else if IsVariable(segments[|segments| - index]) then SliceFrom(segments, -index + 1)
    else TrimFrom(segments, index + 1)
  }

  /** The segments of a template the matcher compares. */
  function Trimmed(segments: seq<string>): seq<string> {
    TrimFrom(segments, 1)
  }

  /** One template segment against one path segment: a segment holding `*`
      matches anything, any other must be equal up to case. */
  predicate SegmentMatches(templateSegment: string, pathSegment: string) {
    '*' in templateSegment || Lower(pathSegment) == Lower(templateSegment)
  }

  /** A template matches a path when it is no longer than the path and each
      of its segments, aligned from the end, matches the path's. */
  predicate TailMatches(template: seq<string>, pathSegments: seq<string>) {
    |template| <= |pathSegments|
    && forall k :: 0 <= k < |template| ==> SegmentMatches(template[k], pathSegments[|pathSegments| - |template| + k])
  }

  predicate TemplateMatches(path: string, separator: char, pathSegments: seq<string>) {
    TailMatches(Trimmed(TemplateSegments(path, separator)), pathSegments)
  }

  predicate SourceMatches(source: Source, pathSegments: seq<string>) {
    IsFileSystemSource(source)
    && exists path :: path in source.paths && TemplateMatches(path, source.separator, pathSegments)
  }

  predicate DefinitionMatches(database: KnownDatabase, pathSegments: seq<string>) {
    exists j :: 0 <= j < |database.sources| && SourceMatches(database.sources[j], pathSegments)
  }

  /** The identifier of the first known database with a matching template,
      if any. */
  function Identify(databases: seq<KnownDatabase>, pathSegments: seq<string>): Option<string> {
    if databases == [] then None
    else if DefinitionMatches(databases[0], pathSegments) then Some(databases[0].identifier)
    else Identify(databases[1..], pathSegments)
  }

  /** `_GetDatabaseIdentifier`: the definitions in order, returning the
      identifier of the first one with a matching template. */
  method GetDatabaseIdentifier(databases: seq<KnownDatabase>, pathSegments: seq<string>) returns (r: Option<string>)
    ensures r == Identify(databases, pathSegments)
  {
    for i := 0 to |databases|
      invariant Identify(databases, pathSegments) == Identify(databases[i..], pathSegments)
    {
      var database := databases[i];
      IdentifyStep(databases, i, pathSegments);
      var isMatch := MatchDefinition(database, pathSegments);
      if isMatch {
        return Some(database.identifier);
      }
    }
    return None;
  }

  /** The loop over the sources of one definition. */
  method MatchDefinition(database: KnownDatabase, pathSegments: seq<string>) returns (isMatch: bool)
    ensures isMatch == DefinitionMatches(database, pathSegments)
  {
    for j := 0 to |database.sources|
      invariant forall j' :: 0 <= j' < j ==> !SourceMatches(database.sources[j'], pathSegments)
    {
      isMatch := MatchSource(database.sources[j], pathSegments);
      if isMatch {
        return;
      }
    }
    return false;
  }

  /** The loop over the distinct paths of one source, in whatever order the
      set gives them. */
  method MatchSource(source: Source, pathSegments: seq<string>) returns (isMatch: bool)
    ensures isMatch == SourceMatches(source, pathSegments)
  {
    if source.sourceType in {DirectorySource, FileSource, PathSource} {
      var remaining := set path | path in source.paths;
      while remaining != {}
        invariant forall path :: path in source.paths && path !in remaining ==>
                    !TemplateMatches(path, source.separator, pathSegments)
        invariant forall path :: path in remaining ==> path in source.paths
        decreases remaining
      {
        var sourcePath :| sourcePath in remaining;
        isMatch := MatchTemplate(sourcePath, source.separator, pathSegments);
        if isMatch {
          return;
        }
        remaining := remaining - {sourcePath};
      }
    }
    return false;
  }

  /** The body of the innermost loop: one template against the path. */
  method MatchTemplate(sourcePath: string, separator: char, pathSegments: seq<string>) returns (isMatch: bool)
    ensures isMatch == TemplateMatches(sourcePath, separator, pathSegments)
  {
    var sourcePathSegments := Split(sourcePath, separator);
    if sourcePathSegments[0] == [] {
      sourcePathSegments := sourcePathSegments[1..];
    }
    sourcePathSegments := TrimTemplate(sourcePathSegments);
    if |sourcePathSegments| > |pathSegments| {
      return false;
    }
    isMatch := MatchTail(sourcePathSegments, pathSegments);
  }

  /** Cuts a template after its last `%variable%` segment. */
  method TrimTemplate(segments: seq<string>) returns (r: seq<string>)
    ensures r == Trimmed(segments)
  {
    r := segments;
    var lastIndex := |segments|;
    for index := 1 to lastIndex + 1
      invariant TrimFrom(segments, 1) == TrimFrom(segments, index)
    {
      var segment := segments[|segments| - index];
      if segment == [] || |segment| < 2 {
        continue;
      }
      if segment[0] == '%' && segment[|segment| - 1] == '%' {
        r := SliceFrom(segments, -index + 1);
        return;
      }
    }
  }

  /** Compares a template with the end of a path, segment by segment from
      the last, stopping at the first mismatch. */
  method MatchTail(template: seq<string>, pathSegments: seq<string>) returns (isMatch: bool)
    requires |template| <= |pathSegments|
    ensures isMatch == TailMatches(template, pathSegments)
  {
    isMatch := true;
    var lastIndex := if |template| < |pathSegments| then |template| else |pathSegments|;
    for index := 1 to lastIndex + 1
      invariant isMatch
      invariant forall k :: |template| - index < k < |template| ==>
                  SegmentMatches(template[k], pathSegments[|pathSegments| - |template| + k])
    {
      var templateSegment := template[|template| - index];
      if '*' in templateSegment {
        continue;
      }
      var pathSegment := Lower(pathSegments[|pathSegments| - index]);
      templateSegment := Lower(templateSegment);
      isMatch := pathSegment == templateSegment;
      if !isMatch {
        break;
      }
    }
  }

  lemma IdentifyStep(databases: seq<KnownDatabase>, i: int, pathSegments: seq<string>)
    requires 0 <= i < |databases|
    ensures Identify(databases[i..], pathSegments)
         == if DefinitionMatches(databases[i], pathSegments) then Some(databases[i].identifier)
            else Identify(databases[i + 1..], pathSegments)
  {
    assert databases[i..][0] == databases[i];
    assert databases[i..][1..] == databases[i + 1..];
  }

  /** A template without a `%variable%` segment is kept whole. */
  lemma {:induction false} TrimFromNoVariable(segments: seq<string>, index: int)
    requires 1 <= index
    requires forall k :: 0 <= k <= |segments| - index ==> !IsVariable(segments[k])
    ensures TrimFrom(segments, index) == segments
    decreases |segments| + 1 - index
  {
    if index <= |segments| {
      TrimFromNoVariable(segments, index + 1);
    }
  }

  lemma {:induction false} TrimFromLastVariable(segments: seq<string>, index: int, k: int)
    requires 0 <= k < |segments| && IsVariable(segments[k])
    requires forall k' :: k < k' < |segments| ==> !IsVariable(segments[k'])
    requires 1 <= index <= |segments| - k
    ensures TrimFrom(segments, index) == SliceFrom(segments, k + 1 - |segments|)
    decreases |segments| - k - index
  {
    if index < |segments| - k {
      TrimFromLastVariable(segments, index + 1, k);
    }
  }

  /** Trimming keeps the segments after the last `%variable%` segment, all
      of them when there is none, and all of them as well when the last
      segment is the variable (Python's `[-1 + 1:]` is `[0:]`). */
  lemma TrimmedIsAfterLastVariable(segments: seq<string>)
    ensures (forall k :: 0 <= k < |segments| ==> !IsVariable(segments[k])) ==> Trimmed(segments) == segments
    ensures forall k :: 0 <= k < |segments| && IsVariable(segments[k])
                        && (forall k' :: k < k' < |segments| ==> !IsVariable(segments[k'])) ==>
              Trimmed(segments) == if k == |segments| - 1 then segments else segments[k + 1..]
  {
    if forall k :: 0 <= k < |segments| ==> !IsVariable(segments[k]) {
      TrimFromNoVariable(segments, 1);
    }
    forall k | 0 <= k < |segments| && IsVariable(segments[k])
               && (forall k' :: k < k' < |segments| ==> !IsVariable(segments[k']))
      ensures Trimmed(segments) == if k == |segments| - 1 then segments else segments[k + 1..]
    {
      TrimFromLastVariable(segments, 1, k);
    }
  }

  /** So the segments compared hold no variable, unless the variable was the
      last segment. */
  lemma TrimmedHasNoVariable(segments: seq<string>)
    requires segments == [] || !IsVariable(segments[|segments| - 1])
    ensures forall k :: 0 <= k < |Trimmed(segments)| ==> !IsVariable(Trimmed(segments)[k])
  {
    TrimmedIsAfterLastVariable(segments);
    if exists k :: 0 <= k < |segments| && IsVariable(segments[k]) {
      var k := LastVariable(segments);
      assert Trimmed(segments) == segments[k + 1..];
      forall i | 0 <= i < |Trimmed(segments)|
        ensures !IsVariable(Trimmed(segments)[i])
      {
        assert Trimmed(segments)[i] == segments[k + 1 + i];
      }
    }
  }

  lemma LastVariable(segments: seq<string>) returns (k: int)
    requires exists k :: 0 <= k < |segments| && IsVariable(segments[k])
    ensures 0 <= k < |segments| && IsVariable(segments[k])
    ensures forall k' :: k < k' < |segments| ==> !IsVariable(segments[k'])
  {
    k :| 0 <= k < |segments| && IsVariable(segments[k]);
    while exists k' :: k < k' < |segments| && IsVariable(segments[k'])
      invariant 0 <= k < |segments| && IsVariable(segments[k])
      decreases |segments| - k
    {
      var later :| k < later < |segments| && IsVariable(segments[later]);
      k := later;
    }
  }

  /** A template written with a leading separator has that separator's empty
      segment dropped. */
  lemma TemplateOfAbsolutePath(rest: string, separator: char)
    ensures TemplateSegments([separator] + rest, separator) == Split(rest, separator)
  {
    PartitionAt([], separator, [separator] + rest);
    assert [] + [separator] + rest == [separator] + rest;
  }

  function LowerSegments(segments: seq<string>): (r: seq<string>)
    ensures |r| == |segments|
    ensures forall k :: 0 <= k < |segments| ==> r[k] == Lower(segments[k])
  {
    if segments == [] then [] else [Lower(segments[0])] + LowerSegments(segments[1..])
  }

  lemma LowerTwice(s: string)
    ensures Lower(Lower(s)) == Lower(s)
  {
  }

  lemma LowerKeepsStar(s: string)
    ensures '*' in Lower(s) <==> '*' in s
  {
    if '*' in s {
      var k :| 0 <= k < |s| && s[k] == '*';
      assert Lower(s)[k] == '*';
    }
  }

  lemma SegmentMatchesIgnoresCase(templateSegment: string, pathSegment: string)
    ensures SegmentMatches(templateSegment, pathSegment) == SegmentMatches(Lower(templateSegment), Lower(pathSegment))
  {
    LowerKeepsStar(templateSegment);
    LowerTwice(templateSegment);
    LowerTwice(pathSegment);
  }

  lemma TailMatchesPointwise(template: seq<string>, pathSegments: seq<string>, template': seq<string>, pathSegments': seq<string>)
    requires |template| == |template'| && |pathSegments| == |pathSegments'|
    requires |template| <= |pathSegments|
    requires forall k :: 0 <= k < |template| ==>
               SegmentMatches(template[k], pathSegments[|pathSegments| - |template| + k])
               == SegmentMatches(template'[k], pathSegments'[|pathSegments| - |template| + k])
    ensures TailMatches(template, pathSegments) == TailMatches(template', pathSegments')
  {
  }

  /** The comparison ignores case, in the path and in the template. */
  lemma MatchIgnoresCase(template: seq<string>, pathSegments: seq<string>)
    ensures TailMatches(template, pathSegments) == TailMatches(LowerSegments(template), LowerSegments(pathSegments))
  {
    var lowerTemplate := LowerSegments(template);
    var lowerPath := LowerSegments(pathSegments);
    if |template| <= |pathSegments| {
      forall k | 0 <= k < |template|
        ensures SegmentMatches(template[k], pathSegments[|pathSegments| - |template| + k])
            == SegmentMatches(lowerTemplate[k], lowerPath[|pathSegments| - |template| + k])
      {
        var j := |pathSegments| - |template| + k;
        assert lowerTemplate[k] == Lower(template[k]) && lowerPath[j] == Lower(pathSegments[j]);
        SegmentMatchesIgnoresCase(template[k], pathSegments[j]);
      }
      TailMatchesPointwise(template, pathSegments, lowerTemplate, lowerPath);
    }
  }

  /** A template made only of segments holding `*` matches every path at
      least as long. */
  lemma WildcardsMatchAnything(template: seq<string>, pathSegments: seq<string>)
    requires forall k :: 0 <= k < |template| ==> '*' in template[k]
    ensures TailMatches(template, pathSegments) <==> |template| <= |pathSegments|
  {
  }

  /** The identifier returned is that of the first definition with a
      matching template, and none is returned when no definition has one. */
  lemma {:induction false} IdentifyIsFirstMatch(databases: seq<KnownDatabase>, pathSegments: seq<string>)
    ensures Identify(databases, pathSegments).None? <==>
              forall k :: 0 <= k < |databases| ==> !DefinitionMatches(databases[k], pathSegments)
    ensures Identify(databases, pathSegments).Some? ==>
              exists k :: 0 <= k < |databases| && DefinitionMatches(databases[k], pathSegments)
                          && databases[k].identifier == Identify(databases, pathSegments).value
                          && forall j :: 0 <= j < k ==> !DefinitionMatches(databases[j], pathSegments)
  {
    if databases != [] && !DefinitionMatches(databases[0], pathSegments) {
      IdentifyIsFirstMatch(databases[1..], pathSegments);
      if Identify(databases, pathSegments).Some? {
        var k :| 0 <= k < |databases[1..]| && DefinitionMatches(databases[1..][k], pathSegments)
                 && databases[1..][k].identifier == Identify(databases, pathSegments).value
                 && forall j :: 0 <= j < k ==> !DefinitionMatches(databases[1..][j], pathSegments);
        assert databases[k + 1] == databases[1..][k];
        forall j | 0 <= j < k + 1
          ensures !DefinitionMatches(databases[j], pathSegments)
        {
          if j > 0 {
            assert databases[j] == databases[1..][j - 1];
          }
        }
      } else {
        forall k | 0 <= k < |databases|
          ensures !DefinitionMatches(databases[k], pathSegments)
        {
          if k > 0 {
            assert databases[k] == databases[1..][k - 1];
          }
        }
      }
    }
  }
}
