/** The Redis key namespace shared by the runner and the controller's cleanup. */
module RedisKeys {

  const ROOT := "kurama:v2"
  const STORE := "store"
  const RATE_LIMIT := "rate-limit"
  const RATE_SCHEDULE := "rate-schedule"

  datatype Scope = Scope(namespace: string, scenario: string, uid: string)

  /** Scope.Validate: every component is non-empty and free of the separator. */
  predicate Valid(s: Scope) {
    && s.namespace != "" && ':' !in s.namespace
    && s.scenario != "" && ':' !in s.scenario
    && s.uid != "" && ':' !in s.uid
  }

  lemma ScopeRule(s: Scope)
    ensures Valid(s) <==>
            forall part :: part in [s.namespace, s.scenario, s.uid] ==>
              |part| > 0 && forall i :: 0 <= i < |part| ==> part[i] as int != 58
  {
    var parts := [s.namespace, s.scenario, s.uid];
    assert parts[0] in parts && parts[1] in parts && parts[2] in parts;
  }

  /** The fields joined with colons. */
  function Join(fields: seq<string>): string
    requires fields != []
  {
    if |fields| == 1 then fields[0] else fields[0] + ":" + Join(fields[1..])
  }

  function KindPrefix(s: Scope, kind: string): string {
    Join([ROOT, kind, s.namespace, s.scenario, s.uid])
  }

  /** The keys one scenario writes: named stores, its shared budget, its schedules. */
  datatype Key = StoreKey(name: string) | RateLimitKey | ScheduleKey(min: nat, max: nat, windowMicros: nat)

  function Kind(k: Key): string {
    match k
    case StoreKey(_) => STORE
    case RateLimitKey => RATE_LIMIT
    case ScheduleKey(_, _, _) => RATE_SCHEDULE
  }

  function Decimal(n: nat): string {
    if n < 10 then ["0123456789"[n]] else Decimal(n / 10) + ["0123456789"[n % 10]]
  }

  /** What follows the kind's prefix: nothing, or a separator and the remaining fields. */
  function Rest(k: Key): string {
    match k
    case StoreKey(name) => name
    case RateLimitKey => ""
    case ScheduleKey(min, max, windowMicros) => Join([Decimal(min), Decimal(max), Decimal(windowMicros)])
  }

  function Fields(s: Scope, k: Key): (fields: seq<string>)
    ensures |fields| == if k.RateLimitKey? then 5 else 6
  {
    var prefix := [ROOT, Kind(k), s.namespace, s.scenario, s.uid];
    if k.RateLimitKey? then prefix else prefix + [Rest(k)]
  }

  function Render(s: Scope, k: Key): string {
    Join(Fields(s, k))
  }

  function CleanupPatterns(s: Scope): seq<string> {
    [KindPrefix(s, STORE) + ":" + "*", KindPrefix(s, RATE_LIMIT), KindPrefix(s, RATE_SCHEDULE) + ":" + "*"]
  }

  // ---- decimal numbers ----

  function DigitValue(c: char): int {
    c as int - '0' as int
  }

  function ParseDecimal(s: string): int {
    if s == [] then 0 else ParseDecimal(s[..|s| - 1]) * 10 + DigitValue(s[|s| - 1])
  }

  lemma {:induction false} DecimalParses(n: nat)
    ensures ParseDecimal(Decimal(n)) == n
    ensures ':' !in Decimal(n)
    ensures |Decimal(n)| > 0
    ensures Decimal(n)[0] == '0' <==> n == 0
  {
    var digit := "0123456789"[n % 10];
    assert DigitValue(digit) == n % 10;
    if n >= 10 {
      DecimalParses(n / 10);
      assert Decimal(n)[..|Decimal(n)| - 1] == Decimal(n / 10);
    } else {
      assert Decimal(n)[..0] == [];
    }
  }

  // ---- separated fields parse one way ----

  lemma FirstFieldUnique(a: string, x: string, b: string, y: string)
    requires ':' !in a && ':' !in b
    requires a + ":" + x <= b + ":" + y
    ensures a == b && x <= y
  {
    var left, right := a + ":" + x, b + ":" + y;
    assert left[|a|] == ':' && left[|a|] == right[|a|];
    assert right[|b|] == ':' && (|b| < |left| ==> left[|b|] == right[|b|]);
    assert a == left[..|a|] && b == right[..|b|];
    assert x == left[|a| + 1..] && y == right[|b| + 1..];
  }

  /** Fields that are equal already, or free of colons on both sides. */
  predicate Separable(a: seq<string>, b: seq<string>, k: nat)
    requires k <= |a| && k <= |b|
  {
    forall i :: 0 <= i < k ==> a[i] == b[i] || (':' !in a[i] && ':' !in b[i])
  }

  /** Joined fields parse one way: a joined prefix has the same leading fields. */
  lemma {:induction false} LeadingFieldsUnique(a: seq<string>, b: seq<string>, k: nat)
    requires k < |a| && k < |b|
    requires Separable(a, b, k)
    requires Join(a) <= Join(b)
    ensures a[..k] == b[..k]
    ensures Join(a[k..]) <= Join(b[k..])
  {
    if k == 0 {
      assert a[0..] == a && b[0..] == b;
    } else {
      var x, y := Join(a[1..]), Join(b[1..]);
      if a[0] == b[0] {
        var n := |a[0]| + 1;
        assert x == Join(a)[n..] && y == Join(b)[n..];
      } else {
        FirstFieldUnique(a[0], x, b[0], y);
      }
      LeadingFieldsUnique(a[1..], b[1..], k - 1);
      assert a[1..][k - 1..] == a[k..] && b[1..][k - 1..] == b[k..];
      assert a[..k] == [a[0]] + a[1..][..k - 1] && b[..k] == [b[0]] + b[1..][..k - 1];
    }
  }

  lemma KindsColonFree(k: Key)
    ensures ':' !in Kind(k)
  {
  }

  lemma FieldsSeparable(s: Scope, k: Key, t: Scope, k': Key)
    requires Valid(s) && Valid(t)
    ensures Separable(Fields(s, k), Fields(t, k'), 5)
  {
    KindsColonFree(k);
    KindsColonFree(k');
  }

  lemma LastField(fields: seq<string>)
    requires |fields| == 1
    ensures Join(fields) == fields[0]
  {
  }

  /** The scope and kind of a key can be read off its text, and off any longer text. */
  lemma ScopeReadable(s: Scope, k: Key, t: Scope, k': Key)
    requires Valid(s) && Valid(t)
    requires !k.RateLimitKey? && !k'.RateLimitKey?
    requires Render(s, k) <= Render(t, k')
    ensures s == t && Kind(k) == Kind(k') && Rest(k) <= Rest(k')
  {
    var a, b := Fields(s, k), Fields(t, k');
    FieldsSeparable(s, k, t, k');
    LeadingFieldsUnique(a, b, 5);
    LastField(a[5..]);
    LastField(b[5..]);
    assert a[..5][1] == a[1] && a[..5][2] == a[2] && a[..5][3] == a[3] && a[..5][4] == a[4];
    assert b[..5][1] == b[1] && b[..5][2] == b[2] && b[..5][3] == b[3] && b[..5][4] == b[4];
  }

  lemma KindReadable(s: Scope, k: Key, t: Scope, k': Key)
    requires Valid(s) && Valid(t)
    requires Render(s, k) <= Render(t, k')
    ensures Kind(k) == Kind(k')
  {
    var a, b := Fields(s, k), Fields(t, k');
    FieldsSeparable(s, k, t, k');
    LeadingFieldsUnique(a, b, 2);
    assert a[..2][1] == a[1] && b[..2][1] == b[1];
  }

  lemma RateLimitReadable(s: Scope, t: Scope)
    requires Valid(s) && Valid(t)
    requires Render(s, RateLimitKey) == Render(t, RateLimitKey)
    ensures s == t
  {
    var a, b := Fields(s, RateLimitKey), Fields(t, RateLimitKey);
    FieldsSeparable(s, RateLimitKey, t, RateLimitKey);
    LeadingFieldsUnique(a, b, 4);
    LeadingFieldsUnique(b, a, 4);
    LastField(a[4..]);
    LastField(b[4..]);
    assert a[..4][2] == a[2] && a[..4][3] == a[3] && b[..4][2] == b[2] && b[..4][3] == b[3];
  }

  lemma KindsDiffer(k: Key, k': Key)
    requires Kind(k) == Kind(k')
    ensures k.StoreKey? == k'.StoreKey? && k.RateLimitKey? == k'.RateLimitKey?
  {
    assert |STORE| != |RATE_LIMIT| && |RATE_LIMIT| != |RATE_SCHEDULE|;
  }

  lemma ScheduleRestUnique(k: Key, k': Key)
    requires k.ScheduleKey? && k'.ScheduleKey?
    requires Rest(k) == Rest(k')
    ensures k == k'
  {
    var a := [Decimal(k.min), Decimal(k.max), Decimal(k.windowMicros)];
    var b := [Decimal(k'.min), Decimal(k'.max), Decimal(k'.windowMicros)];
    DecimalParses(k.min);
    DecimalParses(k'.min);
    DecimalParses(k.max);
    DecimalParses(k'.max);
    DecimalParses(k.windowMicros);
    DecimalParses(k'.windowMicros);
    LeadingFieldsUnique(a, b, 2);
    LeadingFieldsUnique(b, a, 2);
    LastField(a[2..]);
    LastField(b[2..]);
    assert a[..2][0] == a[0] && a[..2][1] == a[1] && b[..2][0] == b[0] && b[..2][1] == b[1];
    assert Decimal(k.windowMicros) == Decimal(k'.windowMicros);
  }

  /** Validated scopes never share a key, whatever the kinds and names. */
  lemma KeysIdentifyScope(s: Scope, k: Key, t: Scope, k': Key)
    requires Valid(s) && Valid(t)
    requires Render(s, k) == Render(t, k')
    ensures s == t && k == k'
  {
    KindReadable(s, k, t, k');
    KindsDiffer(k, k');
    if k.RateLimitKey? {
      RateLimitReadable(s, t);
    } else {
      ScopeReadable(s, k, t, k');
      ScopeReadable(t, k', s, k);
      assert Rest(k) == Rest(k');
      if k.ScheduleKey? {
        ScheduleRestUnique(k, k');
      }
    }
  }

  lemma JoinThree(a: string, b: string, c: string)
    ensures Join([a, b, c]) == a + ":" + (b + ":" + c)
  {
    assert [a, b, c][1..] == [b, c] && [b, c][1..] == [c];
    LastField([c]);
    assert Join([b, c]) == b + ":" + Join([c]);
  }

  lemma PrefixSplits(s: Scope, kind: string)
    ensures KindPrefix(s, kind) == ROOT + ":" + (kind + ":" + (s.namespace + ":" + (s.scenario + ":" + s.uid)))
  {
    var f := [ROOT, kind, s.namespace, s.scenario, s.uid];
    assert f[1..] == [kind, s.namespace, s.scenario, s.uid];
    assert f[1..][1..] == [s.namespace, s.scenario, s.uid];
    assert Join(f[1..]) == kind + ":" + Join(f[1..][1..]);
    JoinThree(s.namespace, s.scenario, s.uid);
  }

  /** The texts of the keys, field by field. */
  lemma KeyTexts(s: Scope, name: string, min: nat, max: nat, windowMicros: nat)
    ensures var owner := s.namespace + ":" + (s.scenario + ":" + s.uid);
            && Render(s, RateLimitKey) == "kurama:v2" + ":" + ("rate-limit" + ":" + owner)
            && Render(s, StoreKey(name)) == "kurama:v2" + ":" + ("store" + ":" + owner) + ":" + name
            && Render(s, ScheduleKey(min, max, windowMicros)) ==
               "kurama:v2" + ":" + ("rate-schedule" + ":" + owner) + ":" +
               (Decimal(min) + ":" + (Decimal(max) + ":" + Decimal(windowMicros)))
  {
    PrefixSplits(s, RATE_LIMIT);
    PrefixSplits(s, STORE);
    PrefixSplits(s, RATE_SCHEDULE);
    OpeningIsKey(s, StoreKey(name));
    OpeningIsKey(s, ScheduleKey(min, max, windowMicros));
    JoinThree(Decimal(min), Decimal(max), Decimal(windowMicros));
  }

  /** Without the colon check two scenarios would share their keys. */
  lemma ColonMakesScopesAmbiguous(kind: string, uid: string)
    ensures var s, t := Scope("a", "b:c", uid), Scope("a:b", "c", uid);
            s != t && KindPrefix(s, kind) == KindPrefix(t, kind)
  {
    var s, t := Scope("a", "b:c", uid), Scope("a:b", "c", uid);
    assert |s.namespace| != |t.namespace|;
    assert "b:c" + (":" + uid) == "b:" + ("c:" + uid);
    PrefixSplits(s, kind);
    PrefixSplits(t, kind);
    assert "a" + ":" + ("b:c" + ":" + uid) == "a:b" + ":" + ("c" + ":" + uid);
  }

  // ---- SCAN patterns ----

  predicate GlobFree(s: string) {
    forall c :: c in s ==> c !in "*?[]\\"
  }

  /** Redis glob matching of `*`, `?` and ordinary characters. */
  predicate Glob(pattern: string, text: string)
    decreases |pattern| + |text|
  {
    if pattern == [] then text == []
    else if pattern[0] == '*' then Glob(pattern[1..], text) || (text != [] && Glob(pattern, text[1..]))
    else text != [] && (pattern[0] == '?' || pattern[0] == text[0]) && Glob(pattern[1..], text[1..])
  }

  lemma {:induction false} StarMatchesAll(text: string)
    ensures Glob("*", text)
  {
    if text != [] {
      StarMatchesAll(text[1..]);
    }
  }

  /**
   A pattern of ordinary characters matches itself; a star after it matches its extensions, a
   question mark those by one character.
   */
  lemma {:induction false} GlobIsPrefix(p: string, text: string)
    requires GlobFree(p)
    ensures Glob(p, text) <==> p == text
    ensures Glob(p + "*", text) <==> p <= text
    ensures Glob(p + "?", text) <==> p <= text && |text| == |p| + 1
  {
    if p == [] {
      StarMatchesAll(text);
      assert p + "*" == "*" && p + "?" == "?";
    } else {
      assert (p + "*")[1..] == p[1..] + "*" && (p + "?")[1..] == p[1..] + "?";
      assert p[0] in p;
      if text != [] {
        GlobIsPrefix(p[1..], text[1..]);
        assert p == [p[0]] + p[1..] && text == [text[0]] + text[1..];
      }
    }
  }

  predicate MatchesCleanup(s: Scope, name: string) {
    exists i :: 0 <= i < |CleanupPatterns(s)| && Glob(CleanupPatterns(s)[i], name)
  }

  lemma {:induction false} JoinGlobFree(fields: seq<string>)
    requires fields != []
    requires forall i :: 0 <= i < |fields| ==> GlobFree(fields[i])
    ensures GlobFree(Join(fields))
  {
    if |fields| > 1 {
      JoinGlobFree(fields[1..]);
    }
  }

  lemma {:induction false} JoinAppend(fields: seq<string>, last: string)
    requires fields != []
    ensures Join(fields + [last]) == Join(fields) + ":" + last
  {
    if |fields| > 1 {
      JoinAppend(fields[1..], last);
      assert (fields + [last])[1..] == fields[1..] + [last];
      assert fields[0] + ":" + (Join(fields[1..]) + ":" + last) == (fields[0] + ":" + Join(fields[1..])) + ":" + last;
    } else {
      assert fields + [last] == [fields[0], last];
      assert [fields[0], last][1..] == [last];
    }
  }

  predicate GlobFreeScope(s: Scope) {
    GlobFree(s.namespace) && GlobFree(s.scenario) && GlobFree(s.uid)
  }

  /** A key of kind `k` without its name, up to and including the separator. */
  function Opening(s: Scope, k: Key): string {
    KindPrefix(s, Kind(k)) + ":"
  }

  lemma OpeningIsKey(s: Scope, k: Key)
    requires !k.RateLimitKey?
    ensures Opening(s, k) <= Render(s, k)
    ensures Opening(s, StoreKey("")) == Render(s, StoreKey(""))
    ensures Render(s, k) == Opening(s, k) + Rest(k)
  {
    var prefix := [ROOT, Kind(k), s.namespace, s.scenario, s.uid];
    JoinAppend(prefix, Rest(k));
    JoinAppend([ROOT, STORE, s.namespace, s.scenario, s.uid], "");
  }

  /** A scope's prefix for a kind is a literal pattern, and with a star a prefix pattern. */
  lemma PrefixPatterns(s: Scope, kind: string, name: string)
    requires GlobFreeScope(s) && GlobFree(kind)
    ensures Glob(KindPrefix(s, kind), name) <==> KindPrefix(s, kind) == name
    ensures Glob(KindPrefix(s, kind) + ":" + "*", name) <==> KindPrefix(s, kind) + ":" <= name
  {
    JoinGlobFree([ROOT, kind, s.namespace, s.scenario, s.uid]);
    GlobIsPrefix(KindPrefix(s, kind), name);
    GlobIsPrefix(KindPrefix(s, kind) + ":", name);
  }

  lemma AnyOfThree(patterns: seq<string>, name: string)
    requires |patterns| == 3
    ensures (exists i :: 0 <= i < |patterns| && Glob(patterns[i], name)) <==>
            Glob(patterns[0], name) || Glob(patterns[1], name) || Glob(patterns[2], name)
  {
  }

  lemma CleanupMatches(s: Scope, name: string)
    requires GlobFreeScope(s)
    ensures MatchesCleanup(s, name) <==>
            || KindPrefix(s, STORE) + ":" <= name
            || KindPrefix(s, RATE_LIMIT) == name
            || KindPrefix(s, RATE_SCHEDULE) + ":" <= name
  {
    PrefixPatterns(s, STORE, name);
    PrefixPatterns(s, RATE_LIMIT, name);
    PrefixPatterns(s, RATE_SCHEDULE, name);
    AnyOfThree(CleanupPatterns(s), name);
  }

  /** A key that begins with a scope's opening for some kind belongs to that scope and kind. */
  lemma OpeningUnique(s: Scope, kind: string, t: Scope, k: Key)
    requires Valid(s) && Valid(t)
    requires ':' !in kind
    requires KindPrefix(s, kind) + ":" <= Render(t, k)
    ensures !k.RateLimitKey? && kind == Kind(k) ==> s == t
    ensures kind == Kind(k)
  {
    var a, b := [ROOT, kind, s.namespace, s.scenario, s.uid, ""], Fields(t, k);
    assert a == [ROOT, kind, s.namespace, s.scenario, s.uid] + [""];
    JoinAppend([ROOT, kind, s.namespace, s.scenario, s.uid], "");
    KindsColonFree(k);
    LeadingFieldsUnique(a, b, 2);
    assert a[..2][1] == a[1] && b[..2][1] == b[1];
    if !k.RateLimitKey? {
      LeadingFieldsUnique(a, b, 5);
      assert a[..5][2] == a[2] && a[..5][3] == a[3] && a[..5][4] == a[4];
      assert b[..5][2] == b[2] && b[..5][3] == b[3] && b[..5][4] == b[4];
    }
  }

  /**
   Cleanup exactness: a scope's patterns match a key exactly when that key was built
   from the same namespace, scenario and UID.
   */
  lemma CleanupExact(s: Scope, t: Scope, k: Key)
    requires Valid(s) && Valid(t)
    requires GlobFreeScope(s)
    ensures MatchesCleanup(s, Render(t, k)) <==> s == t
  {
    var name := Render(t, k);
    CleanupMatches(s, name);
    if KindPrefix(s, STORE) + ":" <= name {
      OpeningUnique(s, STORE, t, k);
      KindsDiffer(StoreKey(""), k);
    }
    if KindPrefix(s, RATE_SCHEDULE) + ":" <= name {
      OpeningUnique(s, RATE_SCHEDULE, t, k);
      KindsDiffer(ScheduleKey(0, 0, 0), k);
    }
    if KindPrefix(s, RATE_LIMIT) == name {
      assert Render(s, RateLimitKey) == name;
      KeysIdentifyScope(s, RateLimitKey, t, k);
    }
    if s == t && !k.RateLimitKey? {
      OpeningIsKey(s, k);
    }
  }
}
