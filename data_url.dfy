/**
 * The data-URL handling of `save_base64_file`: the pattern
 * `data:(.*?);base64,(.*)` applied with Python's `re.match` (anchored at
 * the start, `.` never matching a newline, the MIME part as short as
 * possible), the file extension taken from the MIME type, and the name and
 * URL of the stored file.
 */
module DataUrl {
  import opened Wrappers
  import opened Text

  const SCHEME: string := "data:"
  const MARKER: string := ";base64,"
  /** The public folder stored files are served from, and the stem of every stored name. */
  const FILES_URL: string := "/files/"
  const NAME_PREFIX: string := "imam_cert_"

  predicate MarkerAt(s: string, j: nat)
  {
    j + |MARKER| <= |s| && s[j..j + |MARKER|] == MARKER
  }

  predicate NoNewline(s: string)
  {
    forall i :: 0 <= i < |s| ==> s[i] != '\n'
  }

  /** True when MARKER occurs nowhere inside `s`. */
  predicate FreeOfMarker(s: string)
  {
    forall j :: 0 <= j <= |s| - |MARKER| ==> !MarkerAt(s, j)
  }

  /**
   * The lazy `(.*?);base64,` step: the first position at or after `from`
   * where MARKER starts, provided no newline lies between `from` and it.
   */
  function FindMarker(s: string, from: nat): (r: Option<nat>)
    requires from <= |s|
    decreases |s| - from
    ensures r.Some? ==> from <= r.value && MarkerAt(s, r.value) && NoNewline(s[from..r.value])
    ensures r.Some? ==> forall j :: from <= j < r.value ==> !MarkerAt(s, j)
    ensures r.None? ==> forall j :: from <= j <= |s| && NoNewline(s[from..j]) ==> !MarkerAt(s, j)
  {
    if MarkerAt(s, from) then Some(from)
    else if from < |s| && s[from] != '\n' then
      var r := FindMarker(s, from + 1);
      if r.Some? then NoNewlineStep(s, from, r.value); r
      else
        assert forall j :: from < j <= |s| ==> (NoNewline(s[from..j]) ==> NoNewline(s[from + 1..j])) by {
          forall j | from < j <= |s| { NoNewlineStep(s, from, j); }
        }
        r
    else
      assert forall j :: from < j <= |s| ==> s[from..j][0] == s[from];
      None
  }

  /** A slice is newline-free exactly when its first character is not a newline and the rest is newline-free. */
  lemma NoNewlineStep(s: string, from: nat, j: nat)
    requires from < j <= |s|
    ensures NoNewline(s[from..j]) <==> s[from] != '\n' && NoNewline(s[from + 1..j])
  {
    assert s[from..j] == [s[from]] + s[from + 1..j];
  }

  /** The greedy `(.*)` step: the index of the first newline at or after `from`, or the end of `s`. */
  function LineEnd(s: string, from: nat): (e: nat)
    requires from <= |s|
    decreases |s| - from
    ensures from <= e <= |s| && NoNewline(s[from..e])
    ensures e == |s| || s[e] == '\n'
  {
    if from == |s| || s[from] == '\n' then from
    else
      var e := LineEnd(s, from + 1);
      assert s[from..e] == [s[from]] + s[from + 1..e];
      e
  }

  /** The two groups of a successful match. */
  datatype Parts = Parts(mime: string, payload: string)

  /**
   * `re.match(r"data:(.*?);base64,(.*)", s)`.  On a match the text is
   * `data:` + mime + `;base64,` + payload, the MIME group is the shortest
   * newline-free one, and the payload runs to the first newline or the end.
   */
  function ParseDataUrl(s: string): (r: Option<Parts>)
    ensures r.None? ==> (!StartsWith(s, SCHEME) ||
      forall j :: |SCHEME| <= j <= |s| && NoNewline(s[|SCHEME|..j]) ==> !MarkerAt(s, j))
    ensures r.Some? ==> StartsWith(s, SCHEME)
    ensures r.Some? ==>
      var m := |SCHEME| + |r.value.mime|;
      && MarkerAt(s, m) && s[|SCHEME|..m] == r.value.mime && NoNewline(r.value.mime)
      && (forall j :: |SCHEME| <= j < m ==> !MarkerAt(s, j))
      && m + |MARKER| + |r.value.payload| <= |s|
      && s[m + |MARKER|..m + |MARKER| + |r.value.payload|] == r.value.payload
      && NoNewline(r.value.payload)
      && (m + |MARKER| + |r.value.payload| == |s| || s[m + |MARKER| + |r.value.payload|] == '\n')
  {
    if !StartsWith(s, SCHEME) then None
    else match FindMarker(s, |SCHEME|)
      case None => None
      case Some(m) =>
        var e := LineEnd(s, m + |MARKER|);
        Some(Parts(s[|SCHEME|..m], s[m + |MARKER|..e]))
  }

  /** Where MARKER is not already inside `mime`, it cannot start anywhere in `mime + MARKER` but at its end. */
  lemma MarkerOnlyAtJoin(mime: string, rest: string, j: nat)
    requires FreeOfMarker(mime) && j < |mime|
    ensures !MarkerAt(mime + MARKER + rest, j)
  {
    var s := mime + MARKER + rest;
    if j + |MARKER| <= |mime| {
      assert s[j..j + |MARKER|] == mime[j..j + |MARKER|];
      assert !MarkerAt(mime, j);
    } else {
      // MARKER would start inside mime and run into the MARKER that follows it,
      // but ';' occurs in MARKER only at its first position.
      var k := |mime| - j;
      assert s[j + k] == ';';
      assert s[j..j + |MARKER|][k] == s[j + k];
      assert MARKER[k] != ';';
    }
  }

  /** The lazy scan stops at the first MARKER when no newline comes before it. */
  lemma FindMarkerIs(s: string, from: nat, m: nat)
    requires from <= m && MarkerAt(s, m) && NoNewline(s[from..m])
    requires forall j :: from <= j < m ==> !MarkerAt(s, j)
    ensures FindMarker(s, from) == Some(m)
  {
  }

  /** The greedy scan stops at the first newline. */
  lemma LineEndIs(s: string, from: nat, e: nat)
    requires from <= e <= |s| && NoNewline(s[from..e]) && (e == |s| || s[e] == '\n')
    ensures LineEnd(s, from) == e
  {
  }

  /** The pieces of `data:` + mime + MARKER + rest sit where they were put. */
  lemma ComposedLayout(mime: string, rest: string)
    ensures var s := SCHEME + mime + MARKER + rest;
      var m := |SCHEME| + |mime|;
      && StartsWith(s, SCHEME) && s[|SCHEME|..m] == mime && MarkerAt(s, m)
      && s[m + |MARKER|..] == rest
  {
    var s := SCHEME + mime + MARKER + rest;
    var m := |SCHEME| + |mime|;
    assert s[..|SCHEME|] == SCHEME;
    assert s[|SCHEME|..m] == mime;
    assert s[m..m + |MARKER|] == MARKER;
    assert s[m + |MARKER|..] == rest;
  }

  /** No MARKER starts inside the MIME part of `data:` + mime + MARKER + rest. */
  lemma NoEarlierMarker(mime: string, rest: string)
    requires FreeOfMarker(mime)
    ensures forall j :: |SCHEME| <= j < |SCHEME| + |mime| ==> !MarkerAt(SCHEME + mime + MARKER + rest, j)
  {
    var body := mime + MARKER + rest;
    var s := SCHEME + mime + MARKER + rest;
    assert s == SCHEME + body;
    forall j | |SCHEME| <= j < |SCHEME| + |mime|
      ensures !MarkerAt(s, j)
    {
      MarkerOnlyAtJoin(mime, rest, j - |SCHEME|);
      assert s[j..] == body[j - |SCHEME|..];
    }
  }

  /**
   * Parsing a data URL built from a MIME type and a payload gives them back,
   * whatever follows the payload after a newline.
   */
  lemma ParseComposed(mime: string, payload: string, tail: string)
    requires NoNewline(mime) && FreeOfMarker(mime) && NoNewline(payload)
    requires tail == [] || tail[0] == '\n'
    ensures ParseDataUrl(SCHEME + mime + MARKER + payload + tail) == Some(Parts(mime, payload))
  {
    var rest := payload + tail;
    var s := SCHEME + mime + MARKER + rest;
    assert s == SCHEME + mime + MARKER + payload + tail;
    var m := |SCHEME| + |mime|;
    var start := m + |MARKER|;
    ComposedLayout(mime, rest);
    NoEarlierMarker(mime, rest);
    FindMarkerIs(s, |SCHEME|, m);
    assert s[start..start + |payload|] == rest[..|payload|] == payload;
    if tail != [] {
      assert s[start + |payload|] == rest[|payload|] == tail[0];
    }
    LineEndIs(s, start, start + |payload|);
  }

  /** `s.split("/")[-1]`: the text after the last '/', or all of `s` when it has none. */
  function LastSegment(s: string): (r: string)
    ensures '/' !in r
    ensures |r| <= |s| && s[|s| - |r|..] == r
    ensures |r| < |s| ==> s[|s| - |r| - 1] == '/'
  {
    if s == [] || s[|s| - 1] == '/' then []
    else
      var r := LastSegment(s[..|s| - 1]) + [s[|s| - 1]];
      assert s[..|s| - 1][|s| - |r|..] + [s[|s| - 1]] == s[|s| - |r|..];
      r
  }

  /** `mime_type.split("/")[-1] or "bin"`. */
  function Extension(mime: string): (r: string)
    ensures r != [] && '/' !in r
    ensures LastSegment(mime) != [] ==> r == LastSegment(mime)
    ensures LastSegment(mime) == [] ==> r == "bin"
  {
    var last := LastSegment(mime);
    if last == [] then "bin" else last
  }

  /** The last segment of a text that ends in `/` + sub, where sub has no '/', is sub. */
  lemma {:induction false} LastSegmentAfterSlash(front: string, sub: string)
    requires '/' !in sub
    ensures LastSegment(front + ['/'] + sub) == sub
    decreases |sub|
  {
    var s := front + ['/'] + sub;
    if sub != [] {
      var init := sub[..|sub| - 1];
      assert s[..|s| - 1] == front + ['/'] + init;
      assert '/' !in init by {
        assert forall i :: 0 <= i < |init| ==> init[i] == sub[i];
      }
      LastSegmentAfterSlash(front, init);
      assert init + [sub[|sub| - 1]] == sub;
    }
  }

  /** A `type/subtype` MIME type yields its subtype; one ending in '/' yields "bin". */
  lemma ExtensionOfSubtype(mainType: string, sub: string)
    requires '/' !in sub
    ensures Extension(mainType + "/" + sub) == if sub == [] then "bin" else sub
  {
    LastSegmentAfterSlash(mainType, sub);
  }

  /** `uuid.uuid4().hex[:8]`: eight lower-case hexadecimal digits. */
  predicate IsHexToken(t: string)
  {
    |t| == 8 && forall i :: 0 <= i < |t| ==> ('0' <= t[i] <= '9' || 'a' <= t[i] <= 'f')
  }

  /** `f"imam_cert_{token}.{ext}"`, the name of the stored file. */
  function FileName(token: string, ext: string): string
  {
    NAME_PREFIX + token + "." + ext
  }

  /**
   * `save_base64_file(data_url, ...)`: returns the URL of the stored file or
   * the text of the exception it raises.  `token` is the random part of the
   * name; `decodeError` and `storeError` are the failures of base64 decoding
   * and of writing the file and its File record.
   */
  function SaveBase64File(dataUrl: string, token: string, decodeError: Option<string>, storeError: Option<string>)
    : (r: Result<string, string>)
    requires IsHexToken(token)
    ensures ParseDataUrl(dataUrl).None? ==> r == Failure("Invalid base64 format")
    ensures ParseDataUrl(dataUrl).Some? && decodeError.Some? ==> r == Failure(decodeError.value)
    ensures ParseDataUrl(dataUrl).Some? && decodeError.None? && storeError.Some? ==> r == Failure(storeError.value)
    ensures r.Success? <==> ParseDataUrl(dataUrl).Some? && decodeError.None? && storeError.None?
    ensures r.Success? ==>
      r.value == FILES_URL + FileName(token, Extension(ParseDataUrl(dataUrl).value.mime))
  {
    match ParseDataUrl(dataUrl)
    case None => Failure("Invalid base64 format")
    case Some(parts) =>
      if decodeError.Some? then Failure(decodeError.value)
      else
        var filename := FileName(token, Extension(parts.mime));
        if storeError.Some? then Failure(storeError.value) else Success(FILES_URL + filename)
  }

  /**
   * The stored file's name is `imam_cert_`, the eight hex digits, a dot and
   * the extension, and holds no '/': the file lands directly in the files
   * folder whatever MIME type the client sent.
   */
  lemma FileNameShape(token: string, ext: string)
    requires IsHexToken(token) && '/' !in ext
    ensures var name := FileName(token, ext);
      && |name| == 19 + |ext|
      && name[..10] == NAME_PREFIX && name[10..18] == token && name[18] == '.'
      && name[19..] == ext
      && '/' !in name
  {
    var prefix := NAME_PREFIX;
    var name := FileName(token, ext);
    assert |prefix| == 10;
    assert name == prefix + token + "." + ext;
    assert forall i :: 0 <= i < |token| ==> token[i] != '/';
    assert '/' !in prefix;
  }
}
