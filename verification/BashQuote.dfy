/** `bash_quote`, `bash_quote_env` and `build_env_string`, against the way a POSIX shell reads
    quoted words. */
module BashQuote {
  import opened Common

  datatype Error = ValueError

  // ---- The printers ------------------------------------------------------------------

  /** `text.replace("'", "'\\''")`. */
  function Escaped(text: string): string {
    if text == [] then "" else (if text[0] == '\'' then "'\\''" else [text[0]]) + Escaped(text[1..])
  }

  function Quote(text: Option<string>): string {
    match text
    case None => ""
    case Some(t) => "'" + Escaped(t) + "'"
  }

  function Equals(s: string): nat {
    if s == [] then 0 else (if s[0] == '=' then 1 else 0) + Equals(s[1..])
  }

  /** The position of the first '='. */
  function FirstEquals(s: string): (i: nat)
    ensures i <= |s|
    ensures forall j :: 0 <= j < i ==> s[j] != '='
    ensures i < |s| ==> s[i] == '='
    ensures i < |s| <==> Equals(s) > 0
  {
    if s == [] then 0 else if s[0] == '=' then 0 else 1 + FirstEquals(s[1..])
  }

  /** `bash_quote_env`; unpacking a split at two or more '=' raises. */
  function QuoteEnv(env: string): Result<string, Error> {
    if Equals(env) == 0 then Ok(env)
    else if Equals(env) > 1 then Err(ValueError)
    else
      var i := FirstEquals(env);
      Ok(env[..i] + "=" + Quote(Some(env[i + 1..])))
  }

  datatype Pair = Pair(key: string, value: Option<string>)

  function QuotePair(p: Pair): string {
    p.key + "=" + Quote(p.value)
  }

  /** Each part followed by a blank. */
  function Spaced(parts: seq<string>): string {
    if parts == [] then "" else parts[0] + " " + Spaced(parts[1..])
  }

  function DropLast(s: string): string {
    if s == [] then "" else s[..|s| - 1]
  }

  /** The parts `build_env_string` writes, or none when an environment string has a second '='. */
  function Parts(envs: seq<string>, pairs: seq<Pair>): Option<seq<string>> {
    if exists e <- envs :: Equals(e) > 1 then None else Some(EnvParts(envs) + PairParts(pairs))
  }

  function EnvParts(envs: seq<string>): (parts: seq<string>)
    ensures |parts| == |envs|
  {
    seq(|envs|, i requires 0 <= i < |envs| => QuotedOr(envs[i]))
  }

  function PairParts(pairs: seq<Pair>): (parts: seq<string>)
    ensures |parts| == |pairs|
  {
    seq(|pairs|, i requires 0 <= i < |pairs| => QuotePair(pairs[i]))
  }

  function QuotedOr(env: string): string {
    match QuoteEnv(env)
    case Ok(s) => s
    case Err(_) => ""
  }

  /** The parts with a blank between any two. */
  function Joined(parts: seq<string>): string {
    if parts == [] then "" else if |parts| == 1 then parts[0] else parts[0] + " " + Joined(parts[1..])
  }

  /** Dropping the last of the blanks joins the parts. */
  lemma {:induction false} DropLastJoins(parts: seq<string>)
    ensures DropLast(Spaced(parts)) == Joined(parts)
    ensures parts != [] ==> Spaced(parts) == Joined(parts) + " "
  {
    if parts == [] {
    } else {
      DropLastJoins(parts[1..]);
      if |parts| == 1 {
        assert Spaced(parts[1..]) == "" && parts[0] + " " + "" == parts[0] + " ";
      } else {
        assert Spaced(parts) == Joined(parts) + " ";
      }
    }
  }

  predicate TwoEquals(s: string) {
    exists i, j :: 0 <= i < j < |s| && s[i] == '=' && s[j] == '='
  }

  lemma {:induction false} EqualsCount(s: string)
    ensures Equals(s) > 0 <==> exists i :: 0 <= i < |s| && s[i] == '='
    ensures Equals(s) > 1 <==> TwoEquals(s)
  {
    if s == [] {
    } else {
      var t := s[1..];
      EqualsCount(t);
      assert forall i :: 0 <= i < |t| ==> t[i] == s[i + 1];
      if i :| 0 <= i < |t| && t[i] == '=' {
        assert s[i + 1] == '=';
      }
      if i, j :| 0 <= i < j < |s| && s[i] == '=' && s[j] == '=' {
        assert t[j - 1] == '=';
        assert i > 0 ==> t[i - 1] == '=';
      }
      if i, j :| 0 <= i < j < |t| && t[i] == '=' && t[j] == '=' {
        assert s[i + 1] == '=' && s[j + 1] == '=';
      }
    }
  }

  /** Building raises exactly when an environment string has a second '='; the values of the pairs may have any. */
  lemma BuildRaisesIff(envs: seq<string>, pairs: seq<Pair>)
    ensures Parts(envs, pairs).None? <==> exists e <- envs :: TwoEquals(e)
  {
    forall e: string
      ensures Equals(e) > 1 <==> TwoEquals(e)
    {
      EqualsCount(e);
    }
  }

  lemma SpacedMore(parts: seq<string>, last: string)
    ensures Spaced(parts + [last]) == Spaced(parts) + last + " "
  {
    if parts == [] {
      assert parts + [last] == [last];
    } else {
      assert (parts + [last])[1..] == parts[1..] + [last];
      SpacedMore(parts[1..], last);
    }
  }

  lemma EnvPartsMore(envs: seq<string>, i: nat)
    requires i < |envs|
    ensures Spaced(EnvParts(envs[..i + 1])) == Spaced(EnvParts(envs[..i])) + QuotedOr(envs[i]) + " "
  {
    assert EnvParts(envs[..i + 1]) == EnvParts(envs[..i]) + [QuotedOr(envs[i])];
    SpacedMore(EnvParts(envs[..i]), QuotedOr(envs[i]));
  }

  lemma PairPartsMore(first: seq<string>, pairs: seq<Pair>, i: nat)
    requires i < |pairs|
    ensures Spaced(first + PairParts(pairs[..i + 1]))
            == Spaced(first + PairParts(pairs[..i])) + QuotePair(pairs[i]) + " "
  {
    assert first + PairParts(pairs[..i + 1]) == first + PairParts(pairs[..i]) + [QuotePair(pairs[i])];
    SpacedMore(first + PairParts(pairs[..i]), QuotePair(pairs[i]));
  }

  /** `build_env_string`; the pairs are given in the dictionary's own order. */
  method BuildEnvString(envs: seq<string>, pairs: seq<Pair>) returns (r: Result<string, Error>)
    ensures r == match Parts(envs, pairs) case None => Err(ValueError) case Some(parts) => Ok(DropLast(Spaced(parts)))
  {
    var env := "";
    for i := 0 to |envs|
      invariant env == Spaced(EnvParts(envs[..i]))
      invariant forall e <- envs[..i] :: Equals(e) <= 1
    {
      var quoted := QuoteEnv(envs[i]);
      if quoted.Err? {
        assert envs[i] in envs;
        return Err(ValueError);
      }
      EnvPartsMore(envs, i);
      env := env + quoted.value + " ";
    }
    assert envs[..|envs|] == envs;
    env := AddPairs(env, pairs, EnvParts(envs));
    r := Ok(DropLast(env));
  }

  /** The second loop of `build_env_string`. */
  method AddPairs(start: string, pairs: seq<Pair>, ghost first: seq<string>) returns (env: string)
    requires start == Spaced(first)
    ensures env == Spaced(first + PairParts(pairs))
  {
    env := start;
    assert first + PairParts(pairs[..0]) == first;
    for i := 0 to |pairs|
      invariant env == Spaced(first + PairParts(pairs[..i]))
    {
      PairPartsMore(first, pairs, i);
      env := env + (pairs[i].key + "=" + Quote(pairs[i].value)) + " ";
    }
    assert pairs[..|pairs|] == pairs;
  }

  // ---- The shell's reading (sections 2.2, 2.2.1 and 2.2.2 of the POSIX Shell Command Language) ----

  /** Between words, inside a word, or inside single quotes, with the word read so far. */
  datatype Mode = Blank | Word(word: string) | Quoted(word: string)

  /** The characters that section 2.2 wants quoted if they are to represent themselves. */
  predicate Special(c: char) {
    c in "|&;<>()$`\\\"' \t\n"
  }

  /** In a pattern the file names decide what a word becomes (section 2.6.6). */
  predicate Pattern(c: char) {
    c in "*?["
  }

  /** A comment at the start of a word (section 2.3), and a home directory there or in an assignment
      (section 2.6.1); inside any other word these characters are ordinary. */
  predicate Opens(c: char, m: Mode) {
    (c == '#' && m.Blank?) || (c == '~' && (m.Blank? || '=' in m.word))
  }

  function Current(m: Mode): string {
    if m.Blank? then "" else m.word
  }

  /** Reads `s` in mode `m` after the words `done`; `None` for input that is not, or need not be, words alone:
      operators, expansions, patterns, comments and double quotes. */
  function Read(s: string, m: Mode, done: seq<string>): Option<seq<string>>
    decreases |s|
  {
    if s == [] then
      match m
      case Blank => Some(done)
      case Word(w) => Some(done + [w])
      case Quoted(_) => None
    else if m.Quoted? then
      Read(s[1..], if s[0] == '\'' then Word(m.word) else Quoted(m.word + [s[0]]), done)
    else if s[0] == ' ' || s[0] == '\t' then
      Read(s[1..], Blank, if m.Word? then done + [m.word] else done)
    else if s[0] == '\'' then
      Read(s[1..], Quoted(Current(m)), done)
    else if s[0] == '\\' && |s| > 1 then
      Read(s[2..], if s[1] == '\n' then m else Word(Current(m) + [s[1]]), done)
    else if Special(s[0]) || Pattern(s[0]) || Opens(s[0], m) then None
    else Read(s[1..], Word(Current(m) + [s[0]]), done)
  }

  function Words(s: string): Option<seq<string>> {
    Read(s, Blank, [])
  }

  /** No character of `s`, read in mode `m`, means anything but itself. */
  predicate PlainIn(s: string, m: Mode) {
    && (forall c <- s :: !Special(c) && !Pattern(c))
    && (m.Blank? && s != [] ==> s[0] != '#' && s[0] != '~')
    && (forall i :: 0 <= i < |s| && s[i] == '~' ==> '=' !in Current(m) && '=' !in s[..i])
  }

  predicate Plain(s: string) {
    PlainIn(s, Blank)
  }

  lemma {:induction false} ReadPlain(s: string, m: Mode, rest: string, done: seq<string>)
    requires PlainIn(s, m) && s != [] && !m.Quoted?
    ensures Read(s + rest, m, done) == Read(rest, Word(Current(m) + s), done)
    decreases |s|
  {
    var next := Word(Current(m) + [s[0]]);
    assert s[0] in s;
    assert (s + rest)[1..] == s[1..] + rest;
    if |s| > 1 {
      forall i | 0 <= i < |s| - 1 && s[1..][i] == '~'
        ensures '=' !in Current(next) && '=' !in s[1..][..i]
      {
        assert s[i + 1] == '~' && s[0] in s[..i + 1] && forall c <- s[1..][..i] :: c in s[..i + 1];
      }
      ReadPlain(s[1..], next, rest, done);
      assert Current(m) + [s[0]] + s[1..] == Current(m) + s;
    } else {
      assert s == [s[0]] && s[1..] + rest == rest;
    }
  }

  lemma {:induction false} ReadEscaped(text: string, w: string, rest: string, done: seq<string>)
    ensures Read(Escaped(text) + "'" + rest, Quoted(w), done) == Read(rest, Word(w + text), done)
    decreases |text|
  {
    if text == [] {
      assert Escaped(text) + "'" + rest == "'" + rest;
      assert ("'" + rest)[1..] == rest && w + text == w;
    } else {
      var tail := Escaped(text[1..]) + "'" + rest;
      ReadEscaped(text[1..], w + [text[0]], rest, done);
      assert w + [text[0]] + text[1..] == w + text;
      if text[0] == '\'' {
        ReadEscapedQuote(w, tail, done);
        assert Escaped(text) + "'" + rest == "'\\''" + tail;
      } else {
        assert Escaped(text) + "'" + rest == [text[0]] + tail;
        assert ([text[0]] + tail)[1..] == tail;
      }
    }
  }

  /** The four characters that stand for one quote inside quotes. */
  lemma ReadEscapedQuote(w: string, tail: string, done: seq<string>)
    ensures Read("'\\''" + tail, Quoted(w), done) == Read(tail, Quoted(w + "'"), done)
  {
    calc {
      Read("'\\''" + tail, Quoted(w), done);
      { assert ("'\\''" + tail)[1..] == "\\''" + tail; }
      Read("\\''" + tail, Word(w), done);
      { assert ("\\''" + tail)[2..] == "'" + tail && ("\\''" + tail)[1] == '\''; }
      Read("'" + tail, Word(w + "'"), done);
      { assert ("'" + tail)[1..] == tail; }
      Read(tail, Quoted(w + "'"), done);
    }
  }

  lemma ReadQuote(text: Option<string>, w: string, rest: string, done: seq<string>)
    ensures Read(Quote(text) + rest, Word(w), done)
            == Read(rest, Word(w + (if text.None? then "" else text.value)), done)
  {
    if text.None? {
      assert Quote(text) + rest == rest && w + "" == w;
    } else {
      var inner := Escaped(text.value) + "'" + rest;
      assert Quote(text) + rest == "'" + inner;
      assert ("'" + inner)[1..] == inner;
      ReadEscaped(text.value, w, rest, done);
    }
  }

  /** Whatever follows, the shell reads `part` as the word `word`. */
  ghost predicate ReadsAs(part: string, word: string) {
    forall rest: string, done: seq<string> :: Read(part + rest, Blank, done) == Read(rest, Word(word), done)
  }

  lemma PlainName(key: string)
    requires Plain(key)
    ensures Plain(key + "=")
  {
    var name := key + "=";
    assert forall i :: 0 <= i < |name| && name[i] == '~' ==> i < |key| && name[..i] == key[..i];
  }

  lemma AssignmentReadsBack(key: string, value: Option<string>)
    requires Plain(key)
    ensures ReadsAs(key + "=" + Quote(value), key + "=" + if value.None? then "" else value.value)
  {
    forall rest: string, done: seq<string>
      ensures Read(key + "=" + Quote(value) + rest, Blank, done)
              == Read(rest, Word(key + "=" + if value.None? then "" else value.value), done)
    {
      AssignmentRead(key + "=", value, rest, done);
    }
  }

  lemma AssignmentRead(name: string, value: Option<string>, rest: string, done: seq<string>)
    requires exists key :: Plain(key) && name == key + "="
    ensures Read(name + Quote(value) + rest, Blank, done)
            == Read(rest, Word(name + if value.None? then "" else value.value), done)
  {
    var key :| Plain(key) && name == key + "=";
    PlainName(key);
    calc {
      Read(name + Quote(value) + rest, Blank, done);
      { assert name + Quote(value) + rest == name + (Quote(value) + rest); }
      Read(name + (Quote(value) + rest), Blank, done);
      { ReadPlain(name, Blank, Quote(value) + rest, done); assert "" + name == name; }
      Read(Quote(value) + rest, Word(name), done);
      { ReadQuote(value, name, rest, done); }
      Read(rest, Word(name + if value.None? then "" else value.value), done);
    }
  }

  /** An environment string that survives: a plain name, one '=', any value; or plain without '='. */
  predicate Assignment(env: string) {
    if Equals(env) == 0 then env != [] && Plain(env) else Equals(env) == 1 && Plain(env[..FirstEquals(env)])
  }

  lemma EnvReadsBack(env: string)
    requires Assignment(env)
    ensures QuoteEnv(env).Ok? && ReadsAs(QuoteEnv(env).value, env)
  {
    if Equals(env) == 0 {
      forall rest: string, done: seq<string>
        ensures Read(env + rest, Blank, done) == Read(rest, Word(env), done)
      {
        ReadPlain(env, Blank, rest, done);
        assert "" + env == env;
      }
    } else {
      var i := FirstEquals(env);
      AssignmentReadsBack(env[..i], Some(env[i + 1..]));
      assert env[..i] + "=" + env[i + 1..] == env;
    }
  }

  lemma {:induction false} PartsReadBack(parts: seq<string>, words: seq<string>, done: seq<string>)
    requires |parts| == |words| && forall i :: 0 <= i < |parts| ==> ReadsAs(parts[i], words[i])
    ensures Read(DropLast(Spaced(parts)), Blank, done) == Some(done + words)
    decreases |parts|
  {
    if parts == [] {
      assert done + words == done;
    } else {
      var more := Spaced(parts[1..]);
      if |parts| == 1 {
        assert DropLast(Spaced(parts)) == parts[0] + "";
        assert Read(parts[0] + "", Blank, done) == Read("", Word(words[0]), done);
        assert done + words == done + [words[0]];
      } else {
        assert more != [];
        var tail := DropLast(more);
        assert DropLast(Spaced(parts)) == parts[0] + (" " + tail);
        assert Read(parts[0] + (" " + tail), Blank, done) == Read(" " + tail, Word(words[0]), done);
        assert (" " + tail)[1..] == tail;
        PartsReadBack(parts[1..], words[1..], done + [words[0]]);
        assert done + [words[0]] + words[1..] == done + words;
      }
    }
  }

  function WordOf(p: Pair): string {
    p.key + "=" + if p.value.None? then "" else p.value.value
  }

  /** The shell reads the string that `build_env_string` makes as exactly the given assignments, in
      order, whatever quotes, blanks or newlines their values contain. */
  lemma EnvStringReadsBack(envs: seq<string>, pairs: seq<Pair>)
    requires forall e <- envs :: Assignment(e)
    requires forall p <- pairs :: Plain(p.key)
    ensures Parts(envs, pairs).Some?
    ensures Words(DropLast(Spaced(Parts(envs, pairs).value)))
            == Some(envs + seq(|pairs|, i requires 0 <= i < |pairs| => WordOf(pairs[i])))
  {
    var parts := Parts(envs, pairs).value;
    var words := envs + seq(|pairs|, i requires 0 <= i < |pairs| => WordOf(pairs[i]));
    forall i | 0 <= i < |parts|
      ensures ReadsAs(parts[i], words[i])
    {
      if i < |envs| {
        EnvReadsBack(envs[i]);
      } else {
        var p := pairs[i - |envs|];
        AssignmentReadsBack(p.key, p.value);
      }
    }
    PartsReadBack(parts, words, []);
    assert [] + words == words;
  }

  // ---- What is passed through unquoted -----------------------------------------------

  function TotalLength(words: seq<string>): nat {
    if words == [] then 0 else TotalLength(words[..|words| - 1]) + |words[|words| - 1]|
  }

  /** Reading never makes characters up. */
  lemma {:induction false} ReadBound(s: string, m: Mode, done: seq<string>)
    requires Read(s, m, done).Some?
    ensures TotalLength(Read(s, m, done).value) <= TotalLength(done) + |Current(m)| + |s|
    decreases |s|
  {
    assert forall w :: (done + [w])[..|done|] == done;
    if s == [] {
    } else if m.Quoted? {
      ReadBound(s[1..], if s[0] == '\'' then Word(m.word) else Quoted(m.word + [s[0]]), done);
    } else if s[0] == ' ' || s[0] == '\t' {
      ReadBound(s[1..], Blank, if m.Word? then done + [m.word] else done);
    } else if s[0] == '\'' {
      ReadBound(s[1..], Quoted(Current(m)), done);
    } else if s[0] == '\\' && |s| > 1 {
      ReadBound(s[2..], if s[1] == '\n' then m else Word(Current(m) + [s[1]]), done);
    } else {
      ReadBound(s[1..], Word(Current(m) + [s[0]]), done);
    }
  }

  lemma {:induction false} SpecialIsLost(s: string, m: Mode)
    requires !m.Quoted? && (exists c <- s :: Special(c)) && Read(s, m, []).Some?
    ensures TotalLength(Read(s, m, []).value) < |Current(m)| + |s|
    decreases |s|
  {
    if !Special(s[0]) {
      var c :| c in s && Special(c);
      assert c in s[1..];
      SpecialIsLost(s[1..], Word(Current(m) + [s[0]]));
    } else if s[0] == ' ' || s[0] == '\t' {
      ReadBound(s[1..], Blank, if m.Word? then [] + [m.word] else []);
      assert ([] + [Current(m)])[..0] == [];
    } else if s[0] == '\'' {
      ReadBound(s[1..], Quoted(Current(m)), []);
    } else {
      ReadBound(s[2..], if s[1] == '\n' then m else Word(Current(m) + [s[1]]), []);
    }
  }

  /** A string without '=' is passed through unquoted. Unless it is a pattern, the shell reads it back as one
      word exactly when it is not empty, has no character that must be quoted, and does not begin
      with '#' or '~'. */
  lemma UnquotedReadsBackIff(env: string)
    requires Equals(env) == 0
    ensures QuoteEnv(env) == Ok(env)
    ensures (forall c <- env :: !Pattern(c)) ==>
              (Words(env) == Some([env])
               <==> env != [] && (forall c <- env :: !Special(c)) && env[0] != '#' && env[0] != '~')
  {
    assert [env][..0] == [] && TotalLength([env]) == |env|;
    if Plain(env) && env != [] {
      ReadPlain(env, Blank, "", []);
      assert env + "" == env && "" + env == env && [] + [env] == [env];
    } else if Words(env).Some? && exists c <- env :: Special(c) {
      SpecialIsLost(env, Blank);
    } else if forall c <- env :: !Special(c) && !Pattern(c) {
      assert forall i :: 0 <= i < |env| ==> '=' !in env[..i] by {
        NoEquals(env);
      }
    }
  }

  lemma {:induction false} NoEquals(s: string)
    ensures Equals(s) == 0 <==> '=' !in s
  {
    if s == [] {
    } else {
      NoEquals(s[1..]);
      assert '=' in s <==> s[0] == '=' || '=' in s[1..];
    }
  }
}
