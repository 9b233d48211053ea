/**
 * The two self-contained helpers of `Config`: the recursive merge of a
 * configuration file over the defaults (`_merge_config`) and the checks of
 * the SMTP settings (`_validate_config`), with the comma split that builds
 * the recipient list.
 */
module Config {
  import opened Wrappers

  /** A configuration value: a nested mapping, or any other (opaque) value. */
  datatype Value = Leaf(text: string) | Dict(entries: map<string, Value>)

  /** The entry `_merge_config` leaves under an override key `k`. */
  function MergedEntry(base: map<string, Value>, override: map<string, Value>, k: string): Value
    requires k in override
    decreases Dict(override), 0
  {
    if k in base && base[k].Dict? && override[k].Dict? then
      Dict(Merge(base[k].entries, override[k].entries))
    else
      override[k]
  }

  /** The mapping `_merge_config(base, override)` leaves in `base`. */
  function Merge(base: map<string, Value>, override: map<string, Value>): (r: map<string, Value>)
    ensures r.Keys == base.Keys + override.Keys
    ensures forall k :: k in base && k !in override ==> r[k] == base[k]
    ensures forall k :: k in override && !(k in base && base[k].Dict? && override[k].Dict?) ==> r[k] == override[k]
    decreases Dict(override), 1
  {
    map k | k in base.Keys + override.Keys ::
      if k in override then MergedEntry(base, override, k) else base[k]
  }

  /**
   * `_merge_config`: walks the override's keys, merging into nested mappings
   * present on both sides and replacing or inserting everything else.
   */
  method MergeConfig(base: map<string, Value>, override: map<string, Value>) returns (merged: map<string, Value>)
    ensures merged == Merge(base, override)
    decreases Dict(override)
  {
    merged := base;
    var pending := override.Keys;
    while pending != {}
      invariant pending <= override.Keys
      invariant merged.Keys == base.Keys + (override.Keys - pending)
      invariant forall k :: k in merged ==>
                  merged[k] == if k in override && k !in pending then MergedEntry(base, override, k) else base[k]
      decreases pending
    {
      var key :| key in pending;
      var value := override[key];
      if key in merged && merged[key].Dict? && value.Dict? {
        var nested := MergeConfig(merged[key].entries, value.entries);
        merged := merged[key := Dict(nested)];
      } else {
        merged := merged[key := value];
      }
      pending := pending - {key};
    }
  }

  /** Merging a mapping into itself changes nothing. */
  lemma {:induction false} MergeSelf(m: map<string, Value>)
    ensures Merge(m, m) == m
    decreases Dict(m)
  {
    forall k | k in m ensures Merge(m, m)[k] == m[k] {
      if m[k].Dict? {
        MergeSelf(m[k].entries);
      }
    }
  }

  /** Applying the same override twice is the same as applying it once. */
  lemma {:induction false} MergeIdempotent(base: map<string, Value>, override: map<string, Value>)
    ensures Merge(Merge(base, override), override) == Merge(base, override)
    decreases Dict(override)
  {
    var once := Merge(base, override);
    forall k | k in once ensures Merge(once, override)[k] == once[k] {
      if k in override {
        assert once[k] == MergedEntry(base, override, k);
        assert Merge(once, override)[k] == MergedEntry(once, override, k);
        if once[k].Dict? && override[k].Dict? {
          if k in base && base[k].Dict? {
            MergeIdempotent(base[k].entries, override[k].entries);
          } else {
            MergeSelf(override[k].entries);
          }
        }
      }
    }
  }

  /** An empty override leaves the base as it is. */
  lemma MergeEmptyOverride(base: map<string, Value>)
    ensures Merge(base, map[]) == base
  {
  }

  // ---- `_validate_config` ----

  predicate IsLetter(c: char)
  {
    'a' <= c <= 'z' || 'A' <= c <= 'Z'
  }

  predicate IsAlnum(c: char)
  {
    IsLetter(c) || '0' <= c <= '9'
  }

  /** `[a-zA-Z0-9._%+-]` */
  predicate IsLocalChar(c: char)
  {
    IsAlnum(c) || c == '.' || c == '_' || c == '%' || c == '+' || c == '-'
  }

  /** `[a-zA-Z0-9.-]` */
  predicate IsDomainChar(c: char)
  {
    IsAlnum(c) || c == '.' || c == '-'
  }

  /**
   * The meaning of `^[a-zA-Z0-9._%+-]+@[a-zA-Z0-9.-]+\.[a-zA-Z]{2,}$`: a
   * non-empty local part `s[..at]`, the `@` at `at`, a non-empty domain
   * `s[at+1..dot]`, the `.` at `dot`, and two or more letters after it.
   */
  ghost predicate MatchesAt(s: string, at: int, dot: int)
  {
    && 0 < at && at + 1 < dot && dot + 2 < |s|
    && s[at] == '@' && s[dot] == '.'
    && (forall k :: 0 <= k < at ==> IsLocalChar(s[k]))
    && (forall k :: at < k < dot ==> IsDomainChar(s[k]))
    && (forall k :: dot < k < |s| ==> IsLetter(s[k]))
  }

  ghost predicate MatchesEmailPattern(s: string)
  {
    exists at, dot :: MatchesAt(s, at, dot)
  }

  /** The first position of `c` in `s`. */
  function IndexOf(s: string, c: char): (r: Option<nat>)
    ensures r.None? ==> forall k :: 0 <= k < |s| ==> s[k] != c
    ensures r.Some? ==> r.value < |s| && s[r.value] == c && forall k :: 0 <= k < r.value ==> s[k] != c
  {
    if s == [] then None
    else if s[0] == c then Some(0)
    else match IndexOf(s[1..], c)
      case None => None
      case Some(i) => Some(i + 1)
  }

  /** The last position of `c` in `s`. */
  function LastIndexOf(s: string, c: char): (r: Option<nat>)
    ensures r.None? ==> forall k :: 0 <= k < |s| ==> s[k] != c
    ensures r.Some? ==> r.value < |s| && s[r.value] == c && forall k :: r.value < k < |s| ==> s[k] != c
  {
    if s == [] then None
    else if s[|s| - 1] == c then Some(|s| - 1)
    else LastIndexOf(s[..|s| - 1], c)
  }

  /**
   * `email_pattern.match(s)`: the local part ends at the first `@` (no local
   * or domain character is an `@`), and the top-level part starts after the
   * last `.` (letters are not dots).
   */
  predicate IsValidEmail(s: string)
  {
    match IndexOf(s, '@')
    case None => false
    case Some(at) =>
      match LastIndexOf(s, '.')
      case None => false
      case Some(dot) =>
        && 0 < at && at + 1 < dot && dot + 2 < |s|
        && (forall k :: 0 <= k < at ==> IsLocalChar(s[k]))
        && (forall k :: at < k < dot ==> IsDomainChar(s[k]))
        && (forall k :: dot < k < |s| ==> IsLetter(s[k]))
  }

  /** The scanning check accepts exactly the strings the pattern matches. */
  lemma EmailCheckMatchesPattern(s: string)
    ensures IsValidEmail(s) <==> MatchesEmailPattern(s)
  {
    if IsValidEmail(s) {
      var at := IndexOf(s, '@').value;
      var dot := LastIndexOf(s, '.').value;
      assert MatchesAt(s, at, dot);
    }
    if MatchesEmailPattern(s) {
      var at, dot :| MatchesAt(s, at, dot);
      assert IndexOf(s, '@') == Some(at);
      assert LastIndexOf(s, '.') == Some(dot);
    }
  }

  /** The characters Python's `str.strip()` removes (those `str.isspace` accepts). */
  predicate IsSpace(c: char)
  {
    var n := c as int;
    || 0x09 <= n <= 0x0D || 0x1C <= n <= 0x20 || n == 0x85 || n == 0xA0 || n == 0x1680
    || 0x2000 <= n <= 0x200A || n == 0x2028 || n == 0x2029 || n == 0x202F || n == 0x205F || n == 0x3000
  }

  predicate AllSpace(s: string)
  {
    forall k :: 0 <= k < |s| ==> IsSpace(s[k])
  }

  /** `s` without its leading whitespace. */
  function TrimStart(s: string): string
  {
    if s != [] && IsSpace(s[0]) then TrimStart(s[1..]) else s
  }

  /** `s` without its trailing whitespace. */
  function TrimEnd(s: string): string
  {
    if s != [] && IsSpace(s[|s| - 1]) then TrimEnd(s[..|s| - 1]) else s
  }

  /** `TrimStart` drops a run of whitespace and keeps the rest: a suffix that does not start with whitespace. */
  lemma {:induction false} TrimStartIsSuffix(s: string)
    ensures |TrimStart(s)| <= |s| && TrimStart(s) == s[|s| - |TrimStart(s)|..]
    ensures AllSpace(s[..|s| - |TrimStart(s)|])
    ensures TrimStart(s) != [] ==> !IsSpace(TrimStart(s)[0])
    decreases |s|
  {
    if s != [] && IsSpace(s[0]) {
      TrimStartIsSuffix(s[1..]);
      var r := TrimStart(s);
      assert s[..|s| - |r|] == [s[0]] + s[1..][..|s| - 1 - |r|];
    }
  }

  /** `TrimEnd` drops a run of whitespace and keeps the rest: a prefix that does not end with whitespace. */
  lemma {:induction false} TrimEndIsPrefix(s: string)
    ensures |TrimEnd(s)| <= |s| && TrimEnd(s) == s[..|TrimEnd(s)|]
    ensures AllSpace(s[|TrimEnd(s)|..])
    ensures TrimEnd(s) != [] ==> !IsSpace(TrimEnd(s)[|TrimEnd(s)| - 1])
    decreases |s|
  {
    if s != [] && IsSpace(s[|s| - 1]) {
      var init := s[..|s| - 1];
      TrimEndIsPrefix(init);
      var r := TrimEnd(s);
      assert s[|r|..] == init[|r|..] + [s[|s| - 1]];
    }
  }

  /** `str.strip()`: `s` without its leading and trailing whitespace. */
  function Strip(s: string): string
  {
    TrimEnd(TrimStart(s))
  }

  /** A string with no whitespace at either end. */
  predicate Trimmed(t: string)
  {
    t == [] || (!IsSpace(t[0]) && !IsSpace(t[|t| - 1]))
  }

  lemma {:induction false} TrimStartOfPadded(p: string, t: string)
    requires AllSpace(p) && (t == [] || !IsSpace(t[0]))
    ensures TrimStart(p + t) == t
    decreases |p|
  {
    if p != [] {
      assert (p + t)[1..] == p[1..] + t;
      TrimStartOfPadded(p[1..], t);
    }
  }

  lemma {:induction false} TrimEndOfPadded(t: string, q: string)
    requires AllSpace(q) && (t == [] || !IsSpace(t[|t| - 1]))
    ensures TrimEnd(t + q) == t
    decreases |q|
  {
    if q != [] {
      assert (t + q)[..|t + q| - 1] == t + q[..|q| - 1];
      TrimEndOfPadded(t, q[..|q| - 1]);
    }
  }

  /**
   * `Strip` removes exactly the padding: a trimmed string surrounded by
   * whitespace on both sides strips back to itself, and every stripped
   * string is trimmed.
   */
  lemma StripRemovesPadding(p: string, t: string, q: string)
    requires AllSpace(p) && AllSpace(q) && Trimmed(t)
    ensures Strip(p + t + q) == t
  {
    if t == [] {
      assert p + t + q == (p + q) + [];
      TrimStartOfPadded(p + q, []);
      assert TrimEnd([]) == [];
    } else {
      assert p + t + q == p + (t + q);
      TrimStartOfPadded(p, t + q);
      TrimEndOfPadded(t, q);
    }
  }

  lemma StripIsTrimmed(s: string)
    ensures Trimmed(Strip(s))
  {
    var x := TrimStart(s);
    var r := TrimEnd(x);
    TrimStartIsSuffix(s);
    TrimEndIsPrefix(x);
    if r != [] {
      assert r[0] == x[0];
    }
  }

  /** Joins `parts` with `sep` between consecutive parts. */
  function Join(parts: seq<string>, sep: char): string
    requires |parts| >= 1
  {
    if |parts| == 1 then parts[0] else parts[0] + [sep] + Join(parts[1..], sep)
  }

  /**
   * Python's `s.split(sep)` with an explicit separator: the pieces between
   * separators, empty ones included, and `[""]` for the empty string.
   */
  function Split(s: string, sep: char): (parts: seq<string>)
    ensures |parts| >= 1
    ensures forall i :: 0 <= i < |parts| ==> sep !in parts[i]
    ensures Join(parts, sep) == s
    decreases |s|
  {
    if s == [] then [""]
    else
      var rest := Split(s[1..], sep);
      if s[0] == sep then
        assert s == [sep] + s[1..];
        [""] + rest
      else
        var parts := [[s[0]] + rest[0]] + rest[1..];
        assert parts[1..] == rest[1..];
        assert s == [s[0]] + s[1..];
        parts
  }

  lemma {:induction false} SplitSingle(w: string, sep: char)
    requires sep !in w
    ensures Split(w, sep) == [w]
    decreases |w|
  {
    if w != [] {
      SplitSingle(w[1..], sep);
      assert [w[0]] + w[1..] == w;
    }
  }

  lemma {:induction false} SplitAfterPiece(w: string, sep: char, t: string)
    requires sep !in w
    ensures Split(w + [sep] + t, sep) == [w] + Split(t, sep)
    decreases |w|
  {
    var s := w + [sep] + t;
    if w == [] {
      assert s[1..] == t;
    } else {
      assert s[1..] == w[1..] + [sep] + t;
      SplitAfterPiece(w[1..], sep, t);
      assert [w[0]] + w[1..] == w;
    }
  }

  /** Splitting undoes joining pieces that contain no separator: `Split` and `Join` are inverse. */
  lemma {:induction false} SplitJoin(parts: seq<string>, sep: char)
    requires |parts| >= 1
    requires forall i :: 0 <= i < |parts| ==> sep !in parts[i]
    ensures Split(Join(parts, sep), sep) == parts
    decreases |parts|
  {
    if |parts| == 1 {
      SplitSingle(parts[0], sep);
    } else {
      SplitJoin(parts[1..], sep);
      SplitAfterPiece(parts[0], sep, Join(parts[1..], sep));
    }
  }

  /** A recipient passes once surrounding whitespace is stripped. */
  predicate ValidRecipient(address: string)
  {
    IsValidEmail(Strip(address))
  }

  datatype ConfigError =
    | InvalidFromAddress(address: string)
    | InvalidToAddress(address: string)
    | InvalidSmtpPort(port: int)

  /** The SMTP settings `_validate_config` inspects. */
  datatype SmtpSettings = SmtpSettings(fromAddress: string, toAddresses: seq<string>, port: int)

  /** `port in range(1, 65536)` */
  predicate IsValidPort(port: int)
  {
    1 <= port < 65536
  }

  /**
   * `_validate_config`: the sender address as given, then each recipient
   * after stripping, then the port; the first failing check is reported (a
   * recipient with its original spacing), as the source's `ValueError`.
   */
  method ValidateConfig(smtp: SmtpSettings) returns (r: Outcome<ConfigError>)
    ensures r == Pass <==>
              && IsValidEmail(smtp.fromAddress)
              && (forall i :: 0 <= i < |smtp.toAddresses| ==> ValidRecipient(smtp.toAddresses[i]))
              && IsValidPort(smtp.port)
    ensures !IsValidEmail(smtp.fromAddress) <==> r == Fail(InvalidFromAddress(smtp.fromAddress))
    ensures r.Fail? && r.error.InvalidFromAddress? ==> r.error.address == smtp.fromAddress
    ensures r.Fail? && r.error.InvalidToAddress? ==>
              && IsValidEmail(smtp.fromAddress)
              && exists i :: 0 <= i < |smtp.toAddresses| && smtp.toAddresses[i] == r.error.address
                             && !ValidRecipient(smtp.toAddresses[i])
                             && forall j :: 0 <= j < i ==> ValidRecipient(smtp.toAddresses[j])
    ensures r.Fail? && r.error.InvalidSmtpPort? ==>
              && IsValidEmail(smtp.fromAddress)
              && (forall i :: 0 <= i < |smtp.toAddresses| ==> ValidRecipient(smtp.toAddresses[i]))
              && r.error.port == smtp.port && !IsValidPort(smtp.port)
  {
    var fromOk := IsValidEmail(smtp.fromAddress);
    if !fromOk {
      return Fail(InvalidFromAddress(smtp.fromAddress));
    }
    var to := smtp.toAddresses;
    for i := 0 to |to|
      invariant forall j :: 0 <= j < i ==> ValidRecipient(to[j])
    {
      var ok := ValidRecipient(to[i]);
      if !ok {
        r := Fail(InvalidToAddress(to[i]));
        assert r.error.address == to[i];
        return;
      }
    }
    if !IsValidPort(smtp.port) {
      return Fail(InvalidSmtpPort(smtp.port));
    }
    r := Pass;
  }
}
