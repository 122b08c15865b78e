/**
 * `AppConfig`: configuration read from the environment — the defaulting
 * rule, the probe-query validator, the pool-size parse, the masking of the
 * JDBC URL for the log, and the settings `createDataSource` hands to the pool.
 */
module AppConfig {
  import opened Wrappers
  import opened JavaLang

  const DbUrlKey: string := "DB_URL"
  const DbUserKey: string := "DB_USER"
  const DbPasswordKey: string := "DB_PASSWORD"
  const PoolSizeKey: string := "DB_POOL_SIZE"
  const DbQueryKey: string := "DB_QUERY"

  const DefaultUrl: string :=
    "jdbc:sqlserver://localhost:1433;" + "databaseName=master;" + "encrypt=true;" + "trustServerCertificate=false;"
  const DefaultUser: string := "db_user"
  const DefaultPassword: string := "yourStrong(!)Password"
  const DefaultPoolSize: string := "2"
  const DefaultQuery: string := "SELECT 1"

  /** Longest accepted query, in UTF-16 code units (`String.length`). */
  const MaxQueryLength: nat := 200

  /** The exceptions configuration loading throws. */
  datatype ConfigError =
    | InvalidQuery                   // IllegalArgumentException from getQuery
    | InvalidPoolSize(text: string)  // NumberFormatException from parseInt in createDataSource

  /** `getEnv`: the variable's value when it is set (even to ""), the default only when it is unset. */
  function GetEnv(env: Env, key: string, default: string): (v: string)
    ensures key in env ==> v == env[key]
    ensures key !in env ==> v == default
  {
    Getenv(env, key).GetOr(default)
  }

  // ---------------------------------------------------------------- getQuery

  /** `getQuery`: the trimmed `DB_QUERY` (default `SELECT 1`), rejected when too long or when it holds a `;`. */
  function GetQuery(env: Env): (r: Result<string, ConfigError>)
    ensures r.Success? ==> Utf16Length(r.value) <= MaxQueryLength && |r.value| <= MaxQueryLength
    ensures r.Success? ==> ';' !in r.value
    ensures r.Success? ==> r.value == [] || (!IsTrimmed(r.value[0]) && !IsTrimmed(r.value[|r.value| - 1]))
    ensures r.Failure? ==> r.error == InvalidQuery
  {
    var q := Trim(GetEnv(env, DbQueryKey, DefaultQuery));
    if Utf16Length(q) > MaxQueryLength || ';' in q then Failure(InvalidQuery) else Success(q)
  }

  /**
   * A `DB_QUERY` of kept text `core` between runs of characters at or below
   * U+0020 is rejected exactly when `core` is over 200 units long or holds a
   * `;`, and is otherwise accepted as `core` itself.
   */
  lemma GetQueryDecision(env: Env, pre: string, core: string, post: string)
    requires forall i :: 0 <= i < |pre| ==> IsTrimmed(pre[i])
    requires forall i :: 0 <= i < |post| ==> IsTrimmed(post[i])
    requires core == [] || (!IsTrimmed(core[0]) && !IsTrimmed(core[|core| - 1]))
    ensures GetQuery(env[DbQueryKey := pre + core + post]).Failure? <==> Utf16Length(core) > MaxQueryLength || ';' in core
    ensures GetQuery(env[DbQueryKey := pre + core + post]).Success? ==> GetQuery(env[DbQueryKey := pre + core + post]).value == core
  {
    TrimPadded(pre, core, post);
    TrimKeepsTrimmedText(core);
  }

  /** The length limit is applied after trimming: padding never causes a rejection, nor changes the result. */
  lemma GetQueryIgnoresPadding(env: Env, pre: string, q: string, post: string)
    requires forall i :: 0 <= i < |pre| ==> IsTrimmed(pre[i])
    requires forall i :: 0 <= i < |post| ==> IsTrimmed(post[i])
    ensures GetQuery(env[DbQueryKey := pre + q + post]) == GetQuery(env[DbQueryKey := q])
  {
    TrimPadded(pre, q, post);
  }

  /** With `DB_QUERY` unset the default `SELECT 1` is accepted unchanged. */
  lemma DefaultQueryAccepted(env: Env)
    requires DbQueryKey !in env
    ensures GetQuery(env) == Success(DefaultQuery)
  {
    TrimKeepsTrimmedText(DefaultQuery);
  }

  /** An accepted query is accepted again, unchanged, when it is fed back as `DB_QUERY`. */
  lemma GetQueryIdempotent(env: Env)
    requires GetQuery(env).Success?
    ensures GetQuery(env[DbQueryKey := GetQuery(env).value]) == GetQuery(env)
  {
    TrimKeepsTrimmedText(GetQuery(env).value);
  }

  // ---------------------------------------------------------------- createDataSource

  /** `Integer.parseInt(getEnv("DB_POOL_SIZE", "2"))`: a malformed value throws, it does not fall back to 2. */
  function PoolSize(env: Env): (r: Result<int, ConfigError>)
    ensures r.Success? ==> InInt32(r.value)
    ensures PoolSizeKey !in env ==> r == Success(2)
    ensures PoolSizeKey in env && ParseInt(env[PoolSizeKey]).None? ==> r == Failure(InvalidPoolSize(env[PoolSizeKey]))
    ensures PoolSizeKey in env && ParseInt(env[PoolSizeKey]).Some? ==> r == Success(ParseInt(env[PoolSizeKey]).value)
  {
    var text := GetEnv(env, PoolSizeKey, DefaultPoolSize);
    assert PoolSizeKey !in env ==> ParseInt(text) == Some(2) by {
      assert DigitsValue("2") == DigitsValue("2"[..0]) * 10 + DigitValue('2');
    }
    match ParseInt(text)
    case Some(n) => Success(n)
    case None => Failure(InvalidPoolSize(text))
  }

  /** The values `createDataSource` passes to the pool configuration. */
  datatype PoolSettings = PoolSettings(jdbcUrl: string, username: string, password: string, maximumPoolSize: int)

  /** The arguments of the log line `Configuring HikariCP with URL: {}, User: {}, PoolSize: {}`. */
  datatype ConfigLogLine = ConfigLogLine(url: string, user: string, poolSize: int)

  datatype DataSourceSetup = DataSourceSetup(settings: PoolSettings, log: ConfigLogLine)

  /**
   * `createDataSource` up to the construction of the pool: read the four
   * variables, parse the pool size (which may throw), log the masked URL.
   */
  function CreateDataSource(env: Env): (r: Result<DataSourceSetup, ConfigError>)
    ensures r.Success? <==> PoolSize(env).Success?
    ensures r.Failure? ==> r.error == PoolSize(env).error
    ensures r.Success? ==> r.value.settings == PoolSettings(
      GetEnv(env, DbUrlKey, DefaultUrl), GetEnv(env, DbUserKey, DefaultUser),
      GetEnv(env, DbPasswordKey, DefaultPassword), PoolSize(env).value)
    ensures r.Success? ==> r.value.log.url == MaskUrl(r.value.settings.jdbcUrl) && EveryMatchMasked(r.value.log.url)
    ensures r.Success? ==> r.value.log.user == r.value.settings.username && r.value.log.poolSize == r.value.settings.maximumPoolSize
  {
    var jdbcUrl := GetEnv(env, DbUrlKey, DefaultUrl);
    var username := GetEnv(env, DbUserKey, DefaultUser);
    var password := GetEnv(env, DbPasswordKey, DefaultPassword);
    match PoolSize(env)
    case Failure(e) => Failure(e)
    case Success(poolSize) =>
      MaskUrlMasksEveryMatch(jdbcUrl);
      Success(DataSourceSetup(PoolSettings(jdbcUrl, username, password, poolSize), ConfigLogLine(MaskUrl(jdbcUrl), username, poolSize)))
  }

  /** The log line does not depend on `DB_PASSWORD`: whatever the password, the same line is logged. */
  lemma ConfigLogIgnoresPassword(env: Env, password: string)
    ensures CreateDataSource(env[DbPasswordKey := password]).Success? <==> CreateDataSource(env).Success?
    ensures CreateDataSource(env).Success? ==>
      CreateDataSource(env[DbPasswordKey := password]).value.log == CreateDataSource(env).value.log
  {
    var env' := env[DbPasswordKey := password];
    assert GetEnv(env', DbUrlKey, DefaultUrl) == GetEnv(env, DbUrlKey, DefaultUrl);
    assert GetEnv(env', DbUserKey, DefaultUser) == GetEnv(env, DbUserKey, DefaultUser);
    assert PoolSize(env') == PoolSize(env);
  }

  // ---------------------------------------------------------------- maskUrl

  /** The literal start of the pattern `password=.*?;`. */
  const PasswordKey: string := "password="
  /** The replacement text. */
  const PasswordMask: string := "password=***;"

  /** The characters `.` does not match in a `java.util.regex` pattern compiled without flags. */
  predicate IsLineTerminator(c: char) {
    c == '\n' || c == '\r' || c == '\U{85}' || c == '\U{2028}' || c == '\U{2029}'
  }

  /** Index of the first `;` of `s` with no line terminator before it: where the lazy `.*?;` stops. */
  function SemicolonOnLine(s: string): (r: Option<nat>)
    ensures r.Some? ==> r.value < |s| && s[r.value] == ';'
    ensures r.Some? ==> forall i :: 0 <= i < r.value ==> s[i] != ';' && !IsLineTerminator(s[i])
  {
    if s == [] || IsLineTerminator(s[0]) then None
    else if s[0] == ';' then Some(0)
    else match SemicolonOnLine(s[1..])
      case Some(k) => Some(k + 1)
      case None => None
  }

  /** The pattern `password=.*?;` matches at the start of `s` (case-sensitively). */
  predicate MatchesAtStart(s: string) {
    |s| >= |PasswordKey| && s[..|PasswordKey|] == PasswordKey && SemicolonOnLine(s[|PasswordKey|..]).Some?
  }

  /** Length of the shortest match at the start of `s`, up to and including its `;`. */
  function MatchLength(s: string): (n: nat)
    requires MatchesAtStart(s)
    ensures |PasswordKey| < n <= |s| && s[n - 1] == ';'
  {
    |PasswordKey| + SemicolonOnLine(s[|PasswordKey|..]).value + 1
  }

  /** The secret a match covers: the text between `password=` and the `;`. */
  function MatchedSecret(s: string): string
    requires MatchesAtStart(s)
  {
    s[|PasswordKey|..MatchLength(s) - 1]
  }

  /**
   * `url.replaceAll("password=.*?;", "password=***;")`: scan left to right,
   * replace each match, resume after it; elsewhere copy one character and
   * move on.
   */
  function MaskUrl(url: string): (r: string)
    decreases |url|
  {
    if url == [] then []
    else if MatchesAtStart(url) then PasswordMask + MaskUrl(url[MatchLength(url)..])
    else [url[0]] + MaskUrl(url[1..])
  }

  /** The pattern matches nowhere in `s`. */
  predicate HasNoMatch(s: string) {
    forall i {:trigger MatchesAtStart(s[i..])} :: 0 <= i < |s| ==> !MatchesAtStart(s[i..])
  }

  /** Every match of the pattern in `s` covers the secret `***` only. */
  predicate EveryMatchMasked(s: string) {
    forall i {:trigger MatchesAtStart(s[i..])} :: 0 <= i < |s| && MatchesAtStart(s[i..]) ==> MatchedSecret(s[i..]) == "***"
  }

  /** A match starts with the characters of `password=`. */
  lemma MatchHasKeyChar(s: string, j: nat)
    requires j < |PasswordKey|
    ensures MatchesAtStart(s) ==> j < |s| && s[j] == PasswordKey[j]
  {
    if MatchesAtStart(s) {
      assert s[j] == s[..|PasswordKey|][j];
    }
  }

  lemma MaskUrlFirstChar(u: string)
    requires u != []
    ensures MaskUrl(u) != [] && MaskUrl(u)[0] == u[0]
  {
    MatchHasKeyChar(u, 0);
  }

  /** A character other than `p` starts no match and is copied. */
  lemma MaskUrlPlainStep(u: string)
    requires u != []
    ensures u[0] != 'p' ==> MaskUrl(u) == [u[0]] + MaskUrl(u[1..])
  {
    MatchHasKeyChar(u, 0);
  }

  /** A prefix `w` free of `p` starts no match, so it is copied as it is. */
  lemma {:induction false} MaskUrlCopiesPlainPrefix(u: string, w: string)
    requires 'p' !in w
    ensures |u| >= |w| && u[..|w|] == w ==> MaskUrl(u) == w + MaskUrl(u[|w|..])
  {
    if w == [] {
      assert u[|w|..] == u;
      assert w + MaskUrl(u) == MaskUrl(u);
    } else if |u| >= |w| && u[..|w|] == w {
      var v, w' := u[1..], w[1..];
      assert u[0] == w[0] && w[0] in w;
      MaskUrlPlainStep(u);
      assert v[..|w'|] == w';
      MaskUrlCopiesPlainPrefix(v, w');
      assert v[|w'|..] == u[|w|..];
      assert w == [w[0]] + w';
      ConcatAssoc([w[0]], w', MaskUrl(u[|w|..]));
    }
  }

  /** The output starts with a prefix `w` free of `p` only if the input does. */
  lemma {:induction false} MaskUrlPlainPrefixBack(u: string, w: string)
    requires 'p' !in w
    ensures |MaskUrl(u)| >= |w| && MaskUrl(u)[..|w|] == w ==> |u| >= |w| && u[..|w|] == w
  {
    if w != [] && u != [] {
      MaskUrlFirstChar(u);
      MaskUrlPlainStep(u);
      PlainTail(w);
      MaskUrlPlainPrefixBack(u[1..], w[1..]);
      PrefixBackStep(u, MaskUrl(u), MaskUrl(u[1..]), w);
    }
  }

  lemma PlainTail(w: string)
    requires w != [] && 'p' !in w
    ensures 'p' !in w[1..]
  {
    assert forall c :: c in w[1..] ==> c in w;
  }

  /** One step of `MaskUrlPlainPrefixBack`, stated on the output `r` and the output `m` of the rest. */
  lemma PrefixBackStep(u: string, r: string, m: string, w: string)
    requires u != [] && w != [] && 'p' !in w
    requires r != [] && r[0] == u[0]
    requires u[0] != 'p' ==> r == [u[0]] + m
    requires |m| >= |w| - 1 && m[..|w| - 1] == w[1..] ==> |u[1..]| >= |w| - 1 && u[1..][..|w| - 1] == w[1..]
    ensures |r| >= |w| && r[..|w|] == w ==> |u| >= |w| && u[..|w|] == w
  {
    if |r| >= |w| && r[..|w|] == w {
      assert r[..|w|][0] == r[0];
      assert w[0] in w;
      assert m[..|w| - 1] == r[..|w|][1..];
      assert u[..|w|] == [u[0]] + u[1..][..|w| - 1];
      assert w == [w[0]] + w[1..];
    }
  }

  /** Characters that are neither `;` nor a line terminator do not change whether the lazy match can end. */
  lemma {:induction false} SemicolonOnLineSkip(v: string, k: nat)
    requires k <= |v|
    requires forall i :: 0 <= i < k ==> v[i] != ';' && !IsLineTerminator(v[i])
    ensures SemicolonOnLine(v).None? <==> SemicolonOnLine(v[k..]).None?
  {
    if k > 0 {
      SemicolonOnLineSkip(v[1..], k - 1);
      assert v[1..][k - 1..] == v[k..];
    }
  }

  /** When no `;` ends the current line, masking does not add one. */
  lemma {:induction false} MaskUrlKeepsUnterminated(v: string)
    requires SemicolonOnLine(v).None?
    ensures SemicolonOnLine(MaskUrl(v)).None?
    decreases |v|
  {
    if v == [] {
    } else if IsLineTerminator(v[0]) {
      MaskUrlFirstChar(v);
    } else {
      assert v[0] != ';';
      assert !MatchesAtStart(v) by {
        if |v| >= |PasswordKey| && v[..|PasswordKey|] == PasswordKey {
          forall i | 0 <= i < |PasswordKey| ensures v[i] != ';' && !IsLineTerminator(v[i]) {
            assert v[i] == PasswordKey[i];
          }
          SemicolonOnLineSkip(v, |PasswordKey|);
        }
      }
      assert MaskUrl(v) == [v[0]] + MaskUrl(v[1..]);
      MaskUrlKeepsUnterminated(v[1..]);
      assert MaskUrl(v)[1..] == MaskUrl(v[1..]);
    }
  }

  lemma MatchesAtStartMask(t: string)
    ensures MatchesAtStart(PasswordMask + t) && MatchLength(PasswordMask + t) == |PasswordMask|
    ensures MatchedSecret(PasswordMask + t) == "***"
  {
    var s := PasswordMask + t;
    assert PasswordMask == PasswordKey + "***" + ";";
    assert s[..|PasswordKey|] == PasswordKey;
    assert s[|PasswordKey|..] == "***" + ";" + t;
    SemicolonAfterPlain("***", t);
  }

  /** How a match at the start of `[c] + m` splits between `c` and `m`. */
  lemma MatchAfterFirst(c: char, m: string)
    ensures MatchesAtStart([c] + m) <==>
              c == 'p' && |m| >= |PasswordKey| - 1 && m[..|PasswordKey| - 1] == PasswordKey[1..]
              && SemicolonOnLine(m[|PasswordKey| - 1..]).Some?
  {
    var r := [c] + m;
    if |m| >= |PasswordKey| - 1 {
      var head := m[..|PasswordKey| - 1];
      assert r[..|PasswordKey|] == [c] + head;
      assert r[|PasswordKey|..] == m[|PasswordKey| - 1..];
      assert PasswordKey == [PasswordKey[0]] + PasswordKey[1..];
      if [c] + head == PasswordKey {
        assert head == ([c] + head)[1..];
      }
    }
  }

  /** After copying a character that starts no match, the output can only match where the input did. */
  lemma PlainStepMatch(u: string)
    requires u != []
    ensures MatchesAtStart([u[0]] + MaskUrl(u[1..])) ==> MatchesAtStart(u)
  {
    var m := MaskUrl(u[1..]);
    var tail := PasswordKey[1..];
    assert 'p' !in tail;
    MatchAfterFirst(u[0], m);
    MatchAfterFirst(u[0], u[1..]);
    assert u == [u[0]] + u[1..];
    MaskUrlPlainPrefixBack(u[1..], tail);
    MaskUrlCopiesPlainPrefix(u[1..], tail);
    if MatchesAtStart([u[0]] + m) {
      var rest := u[1..][|tail|..];
      assert m[|tail|..] == MaskUrl(rest);
      if SemicolonOnLine(rest).None? {
        MaskUrlKeepsUnterminated(rest);
      }
    }
  }

  /**
   * Every match of the pattern left in the masked URL covers `***` only. This
   * is not the absence of any password: a `password=` with no `;` after it on
   * its line, or a differently cased key such as `Password=`, is not a match
   * and stays in clear (`MaskUrlKeepsUnterminatedPassword`,
   * `CapitalisedKeyUnmasked`).
   */
  lemma {:induction false} MaskUrlMasksEveryMatch(u: string)
    ensures EveryMatchMasked(MaskUrl(u))
    decreases |u|
  {
    if u == [] {
    } else if MatchesAtStart(u) {
      MaskUrlAtMatch(u);
      MaskUrlMasksEveryMatch(u[MatchLength(u)..]);
      MaskBeforeEveryMatchMasked(MaskUrl(u[MatchLength(u)..]));
    } else {
      MaskUrlCopyStep(u);
      MaskUrlMasksEveryMatch(u[1..]);
      PlainStepMatch(u);
      PlainBeforeEveryMatchMasked(u[0], MaskUrl(u[1..]));
    }
  }

  /** The replacement text followed by text whose every match is masked has every match masked. */
  lemma MaskBeforeEveryMatchMasked(t: string)
    requires EveryMatchMasked(t)
    ensures EveryMatchMasked(PasswordMask + t)
  {
    var r := PasswordMask + t;
    forall i {:trigger MatchesAtStart(r[i..])} | 0 < i < |PasswordMask| ensures !MatchesAtStart(r[i..]) {
      MatchHasKeyChar(r[i..], 0);
      assert r[i..][0] == PasswordMask[i];
    }
    forall i {:trigger MatchesAtStart(r[i..])} | 0 <= i < |r| && MatchesAtStart(r[i..]) ensures MatchedSecret(r[i..]) == "***" {
      if i == 0 {
        MatchesAtStartMask(t);
        assert r[0..] == r;
      } else if i >= |PasswordMask| {
        assert r[i..] == t[i - |PasswordMask|..];
      }
    }
  }

  /** A character starting no match, followed by text whose every match is masked, has every match masked. */
  lemma PlainBeforeEveryMatchMasked(c: char, t: string)
    requires EveryMatchMasked(t) && !MatchesAtStart([c] + t)
    ensures EveryMatchMasked([c] + t)
  {
    var r := [c] + t;
    assert !MatchesAtStart(r[0..]) by { assert r[0..] == r; }
    forall i {:trigger MatchesAtStart(r[i..])} | 0 <= i < |r| && MatchesAtStart(r[i..]) ensures MatchedSecret(r[i..]) == "***" {
      if i > 0 {
        assert r[i..] == t[i - 1..];
      }
    }
  }

  /** Dropping a prefix keeps the property that every match covers `***` only. */
  lemma EveryMatchMaskedSuffix(s: string, k: nat)
    requires k <= |s|
    ensures EveryMatchMasked(s) ==> EveryMatchMasked(s[k..])
  {
    if EveryMatchMasked(s) {
      forall i {:trigger MatchesAtStart(s[k..][i..])} | 0 <= i < |s[k..]| && MatchesAtStart(s[k..][i..]) ensures MatchedSecret(s[k..][i..]) == "***" {
        assert s[k..][i..] == s[k + i..];
      }
    }
  }

  /** A match covering `***` is exactly the replacement text. */
  lemma MaskedMatchIsMask(s: string)
    requires MatchesAtStart(s)
    ensures MatchedSecret(s) == "***" ==> s[..MatchLength(s)] == PasswordMask
  {
    var n := MatchLength(s);
    var k := |PasswordKey|;
    assert s[..n] == s[..k] + s[k..n];
    assert s[k..n] == s[k..n - 1] + [s[n - 1]];
    assert s[k..n - 1] == MatchedSecret(s);
    assert s[n - 1] == ';';
    assert PasswordMask == PasswordKey + "***" + ";";
  }

  /** Text whose every match already covers `***` only is left as it is. */
  lemma {:induction false} MaskUrlFixesMasked(s: string)
    requires EveryMatchMasked(s)
    ensures MaskUrl(s) == s
    decreases |s|
  {
    if s == [] {
    } else if MatchesAtStart(s) {
      var n := MatchLength(s);
      assert MatchedSecret(s[0..]) == "***" by { assert s[0..] == s; }
      MaskedMatchIsMask(s);
      EveryMatchMaskedSuffix(s, n);
      MaskUrlFixesMasked(s[n..]);
      assert MaskUrl(s) == s[..n] + s[n..];
      assert s == s[..n] + s[n..];
    } else {
      EveryMatchMaskedSuffix(s, 1);
      MaskUrlFixesMasked(s[1..]);
      assert s == [s[0]] + s[1..];
    }
  }

  /** Masking an already masked URL changes nothing. */
  lemma MaskUrlIdempotent(u: string)
    ensures MaskUrl(MaskUrl(u)) == MaskUrl(u)
  {
    MaskUrlMasksEveryMatch(u);
    MaskUrlFixesMasked(MaskUrl(u));
  }

  /** Where no match starts, one character is copied and scanning moves on. */
  lemma MaskUrlCopyStep(s: string)
    requires s != [] && !MatchesAtStart(s)
    ensures MaskUrl(s) == [s[0]] + MaskUrl(s[1..])
  {
  }

  /** Text before the first match is copied unchanged. */
  lemma {:induction false} MaskUrlKeepsTextBeforeMatch(s: string, k: nat)
    requires k <= |s|
    requires forall i {:trigger MatchesAtStart(s[i..])} :: 0 <= i < k ==> !MatchesAtStart(s[i..])
    ensures MaskUrl(s) == s[..k] + MaskUrl(s[k..])
  {
    if k == 0 {
      assert s[..0] + MaskUrl(s[0..]) == MaskUrl(s) by { assert s[0..] == s; }
    } else {
      assert !MatchesAtStart(s[0..]);
      assert s[0..] == s;
      MaskUrlCopyStep(s);
      var v := s[1..];
      forall i {:trigger MatchesAtStart(v[i..])} | 0 <= i < k - 1 ensures !MatchesAtStart(v[i..]) {
        assert v[i..] == s[i + 1..];
      }
      MaskUrlKeepsTextBeforeMatch(v, k - 1);
      assert v[k - 1..] == s[k..];
      assert s[..k] == [s[0]] + v[..k - 1];
      ConcatAssoc([s[0]], v[..k - 1], MaskUrl(s[k..]));
    }
  }

  /** At a match, the whole match is replaced and scanning resumes after its `;`. */
  lemma MaskUrlAtMatch(t: string)
    requires MatchesAtStart(t)
    ensures MaskUrl(t) == PasswordMask + MaskUrl(t[MatchLength(t)..])
  {
  }

  /** The first match becomes `password=***;`, and scanning resumes after its `;`. */
  lemma MaskUrlReplacesFirstMatch(s: string, k: nat)
    requires k < |s| && MatchesAtStart(s[k..])
    requires forall i {:trigger MatchesAtStart(s[i..])} :: 0 <= i < k ==> !MatchesAtStart(s[i..])
    ensures MaskUrl(s) == s[..k] + PasswordMask + MaskUrl(s[k + MatchLength(s[k..])..])
  {
    MaskUrlKeepsTextBeforeMatch(s, k);
    MaskUrlReplacesMatchAt(s, k);
  }

  /** Once the text before `k` is known to be copied, the match at `k` is replaced. */
  lemma MaskUrlReplacesMatchAt(s: string, k: nat)
    requires k < |s| && MatchesAtStart(s[k..])
    requires MaskUrl(s) == s[..k] + MaskUrl(s[k..])
    ensures MaskUrl(s) == s[..k] + PasswordMask + MaskUrl(s[k + MatchLength(s[k..])..])
  {
    var t := s[k..];
    var n := MatchLength(t);
    MaskUrlAtMatch(t);
    assert t[n..] == s[k + n..];
    SpliceMask(MaskUrl(s), s[..k], MaskUrl(t), MaskUrl(s[k + n..]));
  }

  /** Regrouping a concatenation, for the proofs that splice masked and unmasked parts. */
  lemma ConcatAssoc(a: string, b: string, c: string)
    ensures a + (b + c) == a + b + c
  {
  }

  lemma SpliceMask(whole: string, before: string, fromMatch: string, rest: string)
    requires whole == before + fromMatch && fromMatch == PasswordMask + rest
    ensures whole == before + PasswordMask + rest
  {
    ConcatAssoc(before, PasswordMask, rest);
  }

  /** A URL in which the pattern matches nowhere is left unchanged. */
  lemma MaskUrlWithoutMatch(s: string)
    requires HasNoMatch(s)
    ensures MaskUrl(s) == s
  {
    MaskUrlKeepsTextBeforeMatch(s, |s|);
    assert s[..|s|] == s;
  }

  /** A `;` the lazy match finds in `x` is found at the same place in any extension of `x`, and conversely. */
  lemma {:induction false} SemicolonOnLineExtend(x: string, y: string)
    ensures SemicolonOnLine(x).Some? ==> SemicolonOnLine(x + y) == SemicolonOnLine(x)
    ensures SemicolonOnLine(x + y).Some? && SemicolonOnLine(x + y).value < |x| ==> SemicolonOnLine(x) == SemicolonOnLine(x + y)
  {
    if x != [] {
      assert (x + y)[0] == x[0];
      assert (x + y)[1..] == x[1..] + y;
      SemicolonOnLineExtend(x[1..], y);
    }
  }

  /** Text made of neither `;` nor line terminators, followed by `;`: the lazy match ends at that `;`. */
  lemma {:induction false} SemicolonAfterPlain(x: string, y: string)
    requires forall i :: 0 <= i < |x| ==> x[i] != ';' && !IsLineTerminator(x[i])
    ensures SemicolonOnLine(x + ";" + y) == Some(|x|)
  {
    if x != [] {
      assert (x + ";" + y)[1..] == x[1..] + ";" + y;
      SemicolonAfterPlain(x[1..], y);
    } else {
      assert x + ";" + y == ";" + y;
    }
  }

  /** A match in `a` is a match of the same length in `a + b`, and a match of `a + b` that ends inside `a` is one of `a`. */
  lemma MatchesAtStartExtend(a: string, b: string)
    ensures MatchesAtStart(a) ==> MatchesAtStart(a + b) && MatchLength(a + b) == MatchLength(a)
    ensures MatchesAtStart(a + b) && MatchLength(a + b) <= |a| ==> MatchesAtStart(a) && MatchLength(a) == MatchLength(a + b)
  {
    var k := |PasswordKey|;
    if |a| >= k {
      assert (a + b)[..k] == a[..k];
      assert (a + b)[k..] == a[k..] + b;
      SemicolonOnLineExtend(a[k..], b);
    }
  }

  /** Nothing after the last `;` of a URL is ever rewritten. */
  lemma {:induction false} MaskUrlAfterLastSemicolon(a: string, b: string)
    requires forall i :: 0 <= i < |b| ==> b[i] != ';'
    ensures MaskUrl(a + b) == MaskUrl(a) + b
    decreases |a|
  {
    if a == [] {
      assert a + b == b;
      forall i {:trigger MatchesAtStart(b[i..])} | 0 <= i < |b| ensures !MatchesAtStart(b[i..]) {
        MatchEndsWithSemicolon(b[i..]);
      }
      MaskUrlWithoutMatch(b);
    } else {
      MatchesAtStartExtend(a, b);
      if MatchesAtStart(a + b) {
        var n := MatchLength(a + b);
        assert n <= |a|;
        assert (a + b)[n..] == a[n..] + b;
        MaskUrlAfterLastSemicolon(a[n..], b);
      } else {
        assert (a + b)[0] == a[0];
        assert (a + b)[1..] == a[1..] + b;
        MaskUrlAfterLastSemicolon(a[1..], b);
      }
    }
  }

  /** `MatchLength`'s last-character fact as an implication, so that it can be used where a match is only assumed. */
  lemma MatchEndsWithSemicolon(s: string)
    ensures MatchesAtStart(s) ==> s[MatchLength(s) - 1] == ';'
  {
  }

  /**
   * A password terminated by `;` is replaced by `***`, and the text before it
   * is kept. That text must not start a match of its own: it holds no `p`,
   * or it holds no match and is empty or ends with `;` (as a JDBC URL built of
   * `key=value;` pairs does).
   */
  lemma MaskUrlHidesPassword(pre: string, secret: string, post: string)
    requires (forall i :: 0 <= i < |pre| ==> pre[i] != 'p') || (HasNoMatch(pre) && (pre == [] || pre[|pre| - 1] == ';'))
    requires forall i :: 0 <= i < |secret| ==> secret[i] != ';' && !IsLineTerminator(secret[i])
    ensures MaskUrl(pre + PasswordKey + secret + ";" + post) == pre + PasswordMask + MaskUrl(post)
  {
    var rest := PasswordKey + secret + ";" + post;
    NoMatchBeforeSuffix(pre, rest);
    assert pre + PasswordKey + secret + ";" + post == pre + rest;
    MaskUrlHidesPasswordAt(pre, secret, post);
  }

  /** `MaskUrlHidesPassword` once no match is known to start before the key. */
  lemma MaskUrlHidesPasswordAt(pre: string, secret: string, post: string)
    requires forall i {:trigger MatchesAtStart((pre + PasswordKey + secret + ";" + post)[i..])} ::
      0 <= i < |pre| ==> !MatchesAtStart((pre + PasswordKey + secret + ";" + post)[i..])
    requires forall i :: 0 <= i < |secret| ==> secret[i] != ';' && !IsLineTerminator(secret[i])
    ensures MaskUrl(pre + PasswordKey + secret + ";" + post) == pre + PasswordMask + MaskUrl(post)
  {
    var s := pre + PasswordKey + secret + ";" + post;
    var k := |pre|;
    assert s[k..][..|PasswordKey|] == PasswordKey;
    assert s[k..][|PasswordKey|..] == secret + ";" + post;
    SemicolonAfterPlain(secret, post);
    MaskUrlReplacesFirstMatch(s, k);
    assert s[..k] == pre;
    assert s[k + MatchLength(s[k..])..] == post;
  }

  /** A prefix free of `p`, or match-free and ending with `;`, starts no match whatever follows it. */
  lemma NoMatchBeforeSuffix(pre: string, rest: string)
    requires (forall i :: 0 <= i < |pre| ==> pre[i] != 'p') || (HasNoMatch(pre) && (pre == [] || pre[|pre| - 1] == ';'))
    ensures forall i {:trigger MatchesAtStart((pre + rest)[i..])} :: 0 <= i < |pre| ==> !MatchesAtStart((pre + rest)[i..])
  {
    var s := pre + rest;
    forall i {:trigger MatchesAtStart(s[i..])} | 0 <= i < |pre| ensures !MatchesAtStart(s[i..]) {
      if forall j :: 0 <= j < |pre| ==> pre[j] != 'p' {
        MatchHasKeyChar(s[i..], 0);
        assert s[i..][0] == pre[i];
      } else {
        NoMatchStartsInPrefix(pre, rest, i);
      }
    }
  }

  /** A lazy match in text that ends with `;` never looks past that `;`. */
  lemma {:induction false} SemicolonOnLineStopsBy(x: string, y: string)
    requires x != [] && x[|x| - 1] == ';'
    ensures SemicolonOnLine(x + y) == SemicolonOnLine(x)
    decreases |x|
  {
    assert (x + y)[0] == x[0];
    if !IsLineTerminator(x[0]) && x[0] != ';' {
      assert (x + y)[1..] == x[1..] + y;
      SemicolonOnLineStopsBy(x[1..], y);
    }
  }

  /** In a match-free text ending with `;`, nothing appended lets a match start. */
  lemma NoMatchStartsInPrefix(pre: string, rest: string, i: nat)
    requires HasNoMatch(pre) && pre != [] && pre[|pre| - 1] == ';' && i < |pre|
    ensures !MatchesAtStart((pre + rest)[i..])
  {
    var t := (pre + rest)[i..];
    var n := |PasswordKey|;
    if i + n >= |pre| {
      // the key would cover the final `;`
      MatchHasKeyChar(t, |pre| - 1 - i);
      assert t[|pre| - 1 - i] == ';';
      KeyHasNoSemicolon();
    } else {
      var a := pre[i..];
      assert t == a + rest;
      assert t[..n] == a[..n];
      assert t[n..] == a[n..] + rest;
      SemicolonOnLineStopsBy(a[n..], rest);
      assert !MatchesAtStart(pre[i..]);
    }
  }

  /** A trailing `password=` with no `;` after it is logged unmasked. */
  lemma MaskUrlKeepsUnterminatedPassword(pre: string, secret: string)
    requires forall i :: 0 <= i < |secret| ==> secret[i] != ';'
    ensures MaskUrl(pre + PasswordKey + secret) == MaskUrl(pre) + PasswordKey + secret
  {
    var tail := PasswordKey + secret;
    KeyHasNoSemicolon();
    forall i | 0 <= i < |tail| ensures tail[i] != ';' {
      if i >= |PasswordKey| {
        assert tail[i] == secret[i - |PasswordKey|];
      }
    }
    MaskUrlAfterLastSemicolon(pre, tail);
    ConcatAssoc(pre, PasswordKey, secret);
    ConcatAssoc(MaskUrl(pre), PasswordKey, secret);
  }

  /** `password=` holds no `;`, so a key on its own never ends a match. */
  lemma KeyHasNoSemicolon()
    ensures forall i :: 0 <= i < |PasswordKey| ==> PasswordKey[i] != ';'
  {
  }

  /** A URL lacking one of the characters of `password=` is left unchanged. */
  lemma MaskUrlMissingKeyChar(s: string, j: nat)
    requires j < |PasswordKey|
    requires forall i :: 0 <= i < |s| ==> s[i] != PasswordKey[j]
    ensures MaskUrl(s) == s
  {
    forall i {:trigger MatchesAtStart(s[i..])} | 0 <= i < |s| ensures !MatchesAtStart(s[i..]) {
      MatchHasKeyChar(s[i..], j);
      if j < |s[i..]| {
        assert s[i..][j] == s[i + j];
      }
    }
    MaskUrlWithoutMatch(s);
  }

  /** The default URL holds no `w`, hence no `password=`, and is logged as it is. */
  lemma DefaultUrlUnmasked()
    ensures MaskUrl(DefaultUrl) == DefaultUrl
  {
    DefaultUrlLacksW();
    MaskUrlMissingKeyChar(DefaultUrl, 4);
  }

  lemma DefaultUrlLacksW()
    ensures forall i :: 0 <= i < |DefaultUrl| ==> DefaultUrl[i] != PasswordKey[4]
  {
    var w := 'w';
    assert PasswordKey[4] == w;
    assert forall i :: 0 <= i < |"jdbc:sqlserver://localhost:1433;"| ==> "jdbc:sqlserver://localhost:1433;"[i] != w;
    assert forall i :: 0 <= i < |"databaseName=master;"| ==> "databaseName=master;"[i] != w;
    assert forall i :: 0 <= i < |"encrypt=true;"| ==> "encrypt=true;"[i] != w;
    assert forall i :: 0 <= i < |"trustServerCertificate=false;"| ==> "trustServerCertificate=false;"[i] != w;
  }

  /** A password appended to the default URL is masked, and the default URL before it is kept. */
  lemma DefaultUrlPasswordMasked(secret: string, post: string)
    requires forall i :: 0 <= i < |secret| ==> secret[i] != ';' && !IsLineTerminator(secret[i])
    ensures MaskUrl(DefaultUrl + PasswordKey + secret + ";" + post) == DefaultUrl + PasswordMask + MaskUrl(post)
  {
    DefaultUrlLacksW();
    forall i {:trigger MatchesAtStart(DefaultUrl[i..])} | 0 <= i < |DefaultUrl| ensures !MatchesAtStart(DefaultUrl[i..]) {
      MatchHasKeyChar(DefaultUrl[i..], 4);
      if 4 < |DefaultUrl[i..]| {
        assert DefaultUrl[i..][4] == DefaultUrl[i + 4];
      }
    }
    assert DefaultUrl[|DefaultUrl| - 1] == ';';
    MaskUrlHidesPassword(DefaultUrl, secret, post);
  }

  /** The match is case-sensitive: `Password=…;` is not masked. */
  lemma CapitalisedKeyUnmasked()
    ensures MaskUrl("jdbc:sqlserver://db;Password=secret;") == "jdbc:sqlserver://db;Password=secret;"
  {
    MaskUrlMissingKeyChar("jdbc:sqlserver://db;Password=secret;", 0);
  }
}
