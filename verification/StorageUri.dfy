/** `storage_uri`, and the constructors that print the URI it has parsed. */
module StorageUri {
  import opened Common

  datatype Error = InvalidUri

  datatype Uri =
    | FileUri(path: string)
    | BucketUri(scheme: string, bucket: string, name: string)

  // ---- String pieces -----------------------------------------------------------------

  function LowerChar(c: char): char {
    if 'A' <= c <= 'Z' then c - 'A' + 'a' else c
  }

  function Lower(s: string): (r: string)
    ensures |r| == |s|
  {
    seq(|s|, i requires 0 <= i < |s| => LowerChar(s[i]))
  }

  /** `s.find('://')`, or the length when there is none. */
  function FindScheme(s: string): (i: nat)
    ensures i <= |s|
    ensures i < |s| ==> i + 3 <= |s| && s[i..i + 3] == "://"
  {
    if s == [] then 0 else if "://" <= s then 0 else 1 + FindScheme(s[1..])
  }

  function FindSlash(s: string): (i: nat)
    ensures i <= |s|
    ensures i < |s| ==> s[i] == '/'
    ensures '/' !in s[..i]
  {
    if s == [] then 0 else if s[0] == '/' then 0 else 1 + FindSlash(s[1..])
  }

  // ---- Bucket names ------------------------------------------------------------------

  predicate Alnum(c: char) {
    'a' <= c <= 'z' || '0' <= c <= '9'
  }

  function WithoutNewline(name: string): string {
    if name != [] && name[|name| - 1] == '\n' then name[..|name| - 1] else name
  }

  /** `^[a-z0-9][a-z0-9\._-]{1,253}[a-z0-9]$`; the final `$` also matches before a newline. */
  predicate NameMatches(name: string) {
    var core := WithoutNewline(name);
    && 3 <= |core| <= 255
    && Alnum(core[0]) && Alnum(core[|core| - 1])
    && forall i :: 1 <= i < |core| - 1 ==> Alnum(core[i]) || core[i] in "._-"
  }

  predicate LabelChar(c: char) {
    Alnum(c) || c == '-' || c == '_'
  }

  predicate LabelAt(name: string, i: nat)
    requires i + 64 <= |name|
  {
    forall k :: i <= k < i + 64 ==> LabelChar(name[k])
  }

  /** `[-_a-z0-9]{64}` occurs somewhere. */
  predicate HasLongLabel(name: string) {
    exists i :: 0 <= i <= |name| - 64 && LabelAt(name, i)
  }

  predicate ValidBucket(name: string) {
    name == "" || (NameMatches(name) && !HasLongLabel(name))
  }

  // ---- Parsing and printing ----------------------------------------------------------

  /** `storage_uri`. */
  function Parse(uri: string, defaultScheme: string, validate: bool): Result<Uri, Error> {
    var end := FindScheme(uri);
    if end == |uri| then
      if ':' in uri then Err(InvalidUri) else ParsePath(Lower(defaultScheme), uri, validate)
    else ParsePath(Lower(uri[..end]), uri[end + 3..], validate)
  }

  function ParsePath(scheme: string, path: string, validate: bool): Result<Uri, Error> {
    if scheme !in {"file", "s3", "gs"} then Err(InvalidUri)
    else if scheme == "file" then Ok(FileUri(path))
    else
      var slash := FindSlash(path);
      var bucket := path[..slash];
      if validate && !ValidBucket(bucket) then Err(InvalidUri)
      else Ok(BucketUri(scheme, bucket, if slash < |path| then path[slash + 1..] else ""))
  }

  /** The `uri` field the constructors compute. */
  function Print(u: Uri): string {
    match u
    case FileUri(path) => "file" + "://" + path
    case BucketUri(scheme, bucket, name) =>
      if bucket != "" && name != "" then scheme + "://" + (bucket + "/" + name)
      else if bucket != "" then scheme + "://" + (bucket + "/")
      else scheme + "://"
  }

  lemma {:induction false} SchemeFound(scheme: string, rest: string)
    requires ':' !in scheme
    ensures FindScheme(scheme + "://" + rest) == |scheme|
  {
    var s := scheme + "://" + rest;
    if scheme == "" {
      assert s == "://" + rest;
      assert s[..3] == "://";
    } else {
      assert s[0] == scheme[0] && scheme[0] in scheme;
      assert s[1..] == scheme[1..] + "://" + rest;
      SchemeFound(scheme[1..], rest);
    }
  }

  lemma {:induction false} SlashFound(bucket: string, name: string)
    requires '/' !in bucket
    ensures FindSlash(bucket + "/" + name) == |bucket|
  {
    var s := bucket + "/" + name;
    if bucket == "" {
    } else {
      assert s[0] == bucket[0] && bucket[0] in bucket;
      assert s[1..] == bucket[1..] + "/" + name;
      SlashFound(bucket[1..], name);
    }
  }

  /** A printed URI is parsed with its own scheme, whatever the default is. */
  lemma ParsePrinted(scheme: string, rest: string, defaultScheme: string, validate: bool)
    requires scheme in {"file", "s3", "gs"}
    ensures Parse(scheme + "://" + rest, defaultScheme, validate) == ParsePath(scheme, rest, validate)
  {
    SchemeFound(scheme, rest);
    var s := scheme + "://" + rest;
    assert s[..|scheme|] == scheme && s[|scheme| + 3..] == rest;
    assert Lower(scheme) == scheme;
  }

  /** Parsing and reparsing what is printed yields the same scheme, bucket and object, exactly when the
      URI names a file, a bucket, or nothing in its scheme: an object without a bucket is lost. */
  lemma ReparseIff(uri: string, defaultScheme: string, again: string, validate: bool)
    requires Parse(uri, defaultScheme, validate).Ok?
    ensures var u := Parse(uri, defaultScheme, validate).value;
            Parse(Print(u), again, validate) == Ok(u) <==> u.FileUri? || u.bucket != "" || u.name == ""
  {
    var u := Parse(uri, defaultScheme, validate).value;
    PrintedParses(u, again, validate);
  }

  predicate Accepted(u: Uri, validate: bool) {
    u.BucketUri? ==> u.scheme in {"s3", "gs"} && '/' !in u.bucket && (validate ==> ValidBucket(u.bucket))
  }

  lemma PrintedParses(u: Uri, again: string, validate: bool)
    requires Accepted(u, validate)
    ensures Parse(Print(u), again, validate) ==
            Ok(if u.BucketUri? && u.bucket == "" then u.(name := "") else u)
  {
    match u
    case FileUri(path) =>
      ParsePrinted("file", path, again, validate);
    case BucketUri(scheme, bucket, name) =>
      if bucket == "" {
        ParsePrinted(scheme, "", again, validate);
        assert scheme + "://" + "" == scheme + "://";
      } else {
        var path := bucket + "/" + name;
        PathParses(scheme, bucket, name, validate);
        ParsePrinted(scheme, path, again, validate);
        assert name == "" ==> path == bucket + "/";
      }
  }

  lemma PathParses(scheme: string, bucket: string, name: string, validate: bool)
    requires Accepted(BucketUri(scheme, bucket, name), validate)
    ensures ParsePath(scheme, bucket + "/" + name, validate) == Ok(BucketUri(scheme, bucket, name))
  {
    var path := bucket + "/" + name;
    SlashFound(bucket, name);
    assert path[..|bucket|] == bucket && path[|bucket| + 1..] == name;
  }

  /** What is printed is accepted again and prints the same, for every accepted URI. */
  lemma PrintIsStable(uri: string, defaultScheme: string, again: string, validate: bool)
    requires Parse(uri, defaultScheme, validate).Ok?
    ensures var u := Parse(uri, defaultScheme, validate).value;
            var r := Parse(Print(u), again, validate);
            r.Ok? && Print(r.value) == Print(u)
  {
    PrintedParses(Parse(uri, defaultScheme, validate).value, again, validate);
  }

  /** What is printed names the scheme, ends a bucket with a slash, and drops an object that has no bucket. */
  lemma PrintedForm(scheme: string, bucket: string, name: string)
    requires bucket != ""
    ensures Print(BucketUri(scheme, bucket, name)) == scheme + "://" + bucket + "/" + name
    ensures Print(BucketUri(scheme, "", name)) == scheme + "://"
    ensures Print(FileUri(name)) == "file://" + name
  {
    assert scheme + "://" + (bucket + "/" + name) == scheme + "://" + bucket + "/" + name;
    assert name == "" ==> scheme + "://" + (bucket + "/") == scheme + "://" + bucket + "/" + name;
    assert "file" + "://" == "file://";
  }

  // ---- URIs as they are given ----------------------------------------------------------

  predicate SeparatorAt(s: string, i: nat)
    requires i + 3 <= |s|
  {
    s[i..i + 3] == "://"
  }

  lemma {:induction false} SchemeIsFirst(s: string, i: nat)
    requires i + 3 <= |s| && SeparatorAt(s, i)
    ensures FindScheme(s) <= i
  {
    if "://" <= s {
    } else {
      assert i == 0 ==> "://" <= s;
      assert s[1..][i - 1..i + 2] == s[i..i + 3];
      SchemeIsFirst(s[1..], i - 1);
    }
  }

  lemma NoScheme(s: string)
    ensures FindScheme(s) == |s| <==> forall i :: 0 <= i <= |s| - 3 ==> !SeparatorAt(s, i)
  {
    if i :| 0 <= i <= |s| - 3 && SeparatorAt(s, i) {
      SchemeIsFirst(s, i);
    }
    var i := FindScheme(s);
    assert i < |s| ==> SeparatorAt(s, i);
  }

  lemma {:induction false} NoColonNoScheme(s: string)
    requires ':' !in s
    ensures FindScheme(s) == |s|
  {
    if s == [] {
    } else {
      assert s[0] in s;
      NoColonNoScheme(s[1..]);
    }
  }

  /** Without a scheme a URI means what it means with the default one written before it. */
  lemma DefaultScheme(uri: string, defaultScheme: string, again: string, validate: bool)
    requires ':' !in uri && ':' !in defaultScheme
    ensures Parse(uri, defaultScheme, validate) == Parse(defaultScheme + "://" + uri, again, validate)
  {
    NoColonNoScheme(uri);
    SchemeFound(defaultScheme, uri);
    var s := defaultScheme + "://" + uri;
    assert s[..|defaultScheme|] == defaultScheme && s[|defaultScheme| + 3..] == uri;
  }

  /** A colon that does not separate a scheme is refused. */
  lemma LoneColonIsRefused(uri: string, defaultScheme: string, validate: bool)
    requires ':' in uri && forall i :: 0 <= i <= |uri| - 3 ==> !SeparatorAt(uri, i)
    ensures Parse(uri, defaultScheme, validate) == Err(InvalidUri)
  {
    NoScheme(uri);
  }

  predicate SameLetter(c: char, lower: char) {
    c == lower || ('a' <= lower <= 'z' && c as int == lower as int - 32)
  }

  /** `s` is `lower`, whatever the case of its letters. */
  predicate Spells(s: string, lower: string) {
    |s| == |lower| && forall i :: 0 <= i < |s| ==> SameLetter(s[i], lower[i])
  }

  lemma SpellsIff(s: string, lower: string)
    requires forall c <- lower :: !('A' <= c <= 'Z')
    ensures Spells(s, lower) <==> Lower(s) == lower
  {
    if |s| == |lower| {
      forall i | 0 <= i < |s|
        ensures SameLetter(s[i], lower[i]) <==> Lower(s)[i] == lower[i]
      {
        assert lower[i] in lower;
      }
    }
  }

  /** Files and, checked only on request, buckets of S3 and Google Storage are accepted, in any case. */
  lemma SchemesIff(scheme: string, path: string, defaultScheme: string)
    requires ':' !in scheme
    ensures Parse(scheme + "://" + path, defaultScheme, false).Ok?
            <==> Spells(scheme, "file") || Spells(scheme, "s3") || Spells(scheme, "gs")
    ensures Spells(scheme, "file") ==> Parse(scheme + "://" + path, defaultScheme, true) == Ok(FileUri(path))
  {
    SchemeFound(scheme, path);
    var s := scheme + "://" + path;
    assert s[..|scheme|] == scheme && s[|scheme| + 3..] == path;
    SpellsIff(scheme, "file");
    SpellsIff(scheme, "s3");
    SpellsIff(scheme, "gs");
  }

  /** The first slash ends the bucket; without one there is no object. */
  lemma BucketAndName(scheme: string, bucket: string, name: string, defaultScheme: string)
    requires scheme in {"s3", "gs"} && '/' !in bucket
    ensures Parse(scheme + "://" + (bucket + "/" + name), defaultScheme, false) == Ok(BucketUri(scheme, bucket, name))
    ensures Parse(scheme + "://" + bucket, defaultScheme, false) == Ok(BucketUri(scheme, bucket, ""))
  {
    ParsePrinted(scheme, bucket + "/" + name, defaultScheme, false);
    ParsePrinted(scheme, bucket, defaultScheme, false);
    PathParses(scheme, bucket, name, false);
    NoSlash(bucket);
  }

  predicate SmallOrDigit(c: char) {
    'a' <= c <= 'z' || '0' <= c <= '9'
  }

  /** The names that validation accepts: 3 to 255 characters, small letters, digits, `.`, `_` and `-`, a letter or
      digit at both ends, and a dot in any 64 characters in a row. */
  lemma ValidNameIff(scheme: string, bucket: string, defaultScheme: string)
    requires scheme in {"s3", "gs"} && '/' !in bucket && '\n' !in bucket && bucket != ""
    ensures Parse(scheme + "://" + bucket, defaultScheme, true).Ok? <==> NameFits(bucket) && NoLongLabel(bucket)
  {
    ParsePrinted(scheme, bucket, defaultScheme, true);
    NoSlash(bucket);
    NameFitsIff(bucket);
    if NameFits(bucket) {
      NoLongLabelIff(bucket);
    }
  }

  predicate NameFits(bucket: string) {
    && 3 <= |bucket| <= 255
    && SmallOrDigit(bucket[0]) && SmallOrDigit(bucket[|bucket| - 1])
    && forall c <- bucket :: SmallOrDigit(c) || c in "._-"
  }

  predicate NoLongLabel(bucket: string) {
    forall i :: 0 <= i <= |bucket| - 64 ==> DotWithin(bucket, i)
  }

  predicate DotWithin(bucket: string, i: nat)
    requires i + 64 <= |bucket|
  {
    '.' in bucket[i..i + 64]
  }

  lemma NoSlash(bucket: string)
    requires '/' !in bucket
    ensures FindSlash(bucket) == |bucket| && bucket[..|bucket|] == bucket
  {
    assert forall i :: 0 <= i < |bucket| ==> bucket[i] in bucket;
  }

  lemma NameFitsIff(bucket: string)
    requires bucket != "" && '\n' !in bucket
    ensures NameMatches(bucket) <==> NameFits(bucket)
  {
    assert bucket[|bucket| - 1] in bucket;
    assert WithoutNewline(bucket) == bucket;
    if NameMatches(bucket) {
      forall c | c in bucket
        ensures SmallOrDigit(c) || c in "._-"
      {
        var i :| 0 <= i < |bucket| && bucket[i] == c;
        assert i == 0 || i == |bucket| - 1 || WithoutNewline(bucket)[i] == c;
      }
    }
    if NameFits(bucket) {
      forall i | 1 <= i < |bucket| - 1
        ensures Alnum(bucket[i]) || bucket[i] in "._-"
      {
        assert bucket[i] in bucket;
      }
    }
  }

  lemma NoLongLabelIff(bucket: string)
    requires forall c <- bucket :: SmallOrDigit(c) || c in "._-"
    ensures HasLongLabel(bucket) <==> !NoLongLabel(bucket)
  {
    if i :| 0 <= i <= |bucket| - 64 && LabelAt(bucket, i) {
      LabelIsDotless(bucket, i);
    }
    if i :| 0 <= i <= |bucket| - 64 && !DotWithin(bucket, i) {
      LabelIsDotless(bucket, i);
    }
  }

  lemma LabelIsDotless(bucket: string, i: nat)
    requires i + 64 <= |bucket| && forall c <- bucket :: SmallOrDigit(c) || c in "._-"
    ensures LabelAt(bucket, i) <==> !DotWithin(bucket, i)
  {
    var part := bucket[i..i + 64];
    assert forall k :: i <= k < i + 64 ==> part[k - i] == bucket[k] && bucket[k] in bucket;
  }
}
