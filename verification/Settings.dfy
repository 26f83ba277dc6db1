/** The settings file: parsing, password hashing, key provisioning and the rewrite (genpi/config.py).
    Lines are already split; hashing, random keys and number parsing are parameters. */
module Settings {
  import opened Prelude
  import opened PyString

  datatype Value = IntV(n: int) | FloatV(x: real) | StrV(s: string)
  type Config = map<string, Value>

  const API_KEY := "API_KEY"
  const API_KEY_ENABLED := "API_KEY_ENABLED"
  const VAPID_PUBLIC := "VAPID_PUBLIC_KEY"
  const VAPID_PRIVATE := "VAPID_PRIVATE_KEY"
  const USER_PREFIX := "USER_"

  /** What a process start draws on: a salted hash per line, a fresh API key, a fresh VAPID pair
      (private, public; None: push unavailable or generation failed), the number parsers, and the
      comment blocks written above a new key or pair. */
  datatype Env = Env(
    hash: (nat, string) -> string, genKey: string, vapid: Option<(string, string)>,
    parseInt: string -> Option<int>, parseFloat: string -> Option<real>,
    keyBlock: seq<string>, vapidBlock: seq<string>)

  predicate IsHash(value: string) {
    StartsWith(value, "scrypt:") || StartsWith(value, "pbkdf2:")
  }

  // ------------------------------------------------------------- one line

  datatype Item =
    | Other
    | Credential(user: string, value: string)
    | ApiKey(value: string)
    | Setting(key: string, value: string)

  /** What a key and its value mean. */
  function ByKey(key: string, value: string, config: Config): (item: Item)
    ensures item.Setting? ==> item.key in config && item.key != API_KEY
  {
    if StartsWith(key, USER_PREFIX) then
      if key[|USER_PREFIX|..] == "" then Other else Credential(key[|USER_PREFIX|..], value)
    else if key == API_KEY then ApiKey(value)
    else if key in config then Setting(key, value)
    else Other
  }

  /** The scan's reading of a line: strip it, skip comments, split at the first `=`. */
  function Classify(line: string, config: Config): (item: Item)
    ensures item.Setting? ==> item.key in config && item.key != API_KEY
  {
    var stripped := Strip(line);
    if stripped == "" || stripped[0] == '#' then Other
    else
      var eq := Find(stripped, '=');
      if eq == |stripped| then Other
      else ByKey(Strip(stripped[..eq]), Strip(stripped[eq + 1..]), config)
  }

  /** `line.split("=", 1)[0].strip()`, by which provisioning looks for a line to fill. */
  function FieldName(line: string): string {
    Strip(line[..Find(line, '=')])
  }

  function Written(key: string, value: string): string {
    key + "=" + value
  }

  // ------------------------------------------------------------- the scan

  datatype Scan = Scan(users: map<string, string>, config: Config, lines: seq<string>, rewrite: bool)

  function Cast(current: Value, value: string, env: Env): Option<Value> {
    match current
    case IntV(_) =>
      var low := Lower(value);
      if low in ["true", "yes", "on"] then Some(IntV(1))
      else if low in ["false", "no", "off"] then Some(IntV(0))
      else if env.parseInt(value).Some? then Some(IntV(env.parseInt(value).value)) else None
    case FloatV(_) => if env.parseFloat(value).Some? then Some(FloatV(env.parseFloat(value).value)) else None
    case StrV(_) => Some(StrV(value))
  }

  /** A setting that does not parse keeps its current value. */
  function Assign(config: Config, key: string, value: string, env: Env): Config
    requires key in config
  {
    var cast := Cast(config[key], value, env);
    if cast.Some? then config[key := cast.value] else config
  }

  predicate HasKey(config: Config) {
    API_KEY in config && config[API_KEY] != StrV("")
  }

  /** One line of the scan: the new accumulator, with the line kept, replaced or dropped. */
  function Step(a: Scan, line: string, index: nat, env: Env): Scan {
    match Classify(line, a.config)
    case Other => a.(lines := a.lines + [line])
    case Credential(user, value) =>
      if IsHash(value) then a.(users := a.users[user := value], lines := a.lines + [line])
      else
        var hashed := env.hash(index, value);
        a.(users := a.users[user := hashed], lines := a.lines + [Written(USER_PREFIX + user, hashed)], rewrite := true)
    case ApiKey(value) =>
      if HasKey(a.config) then a.(rewrite := true)
      else a.(config := a.config[API_KEY := StrV(value)], lines := a.lines + [line])
    case Setting(key, value) => a.(config := Assign(a.config, key, value, env), lines := a.lines + [line])
  }

  function ScanLines(a: Scan, lines: seq<string>, index: nat, env: Env): Scan
    decreases |lines|
  {
    if lines == [] then a else ScanLines(Step(a, lines[0], index, env), lines[1..], index + 1, env)
  }

  // ------------------------------------------------------------- provisioning

  /** The first line with the given field name, or the number of lines. */
  function FindField(lines: seq<string>, key: string): (i: nat)
    ensures i <= |lines|
    ensures i < |lines| ==> FieldName(lines[i]) == key
    ensures forall j :: 0 <= j < i ==> FieldName(lines[j]) != key
  {
    if lines == [] || FieldName(lines[0]) == key then 0 else 1 + FindField(lines[1..], key)
  }

  /** Fills the first such line in place, else appends one after the given block. */
  function Upsert(lines: seq<string>, key: string, value: string, block: seq<string>): seq<string> {
    var i := FindField(lines, key);
    if i < |lines| then lines[i := Written(key, value)] else lines + block + [Written(key, value)]
  }

  predicate NeedsKey(config: Config) {
    API_KEY_ENABLED in config && config[API_KEY_ENABLED] != IntV(0) && !HasKey(config)
  }

  predicate NeedsVapid(config: Config, env: Env): (needed: bool)
    ensures needed ==> env.vapid.Some?
  {
    env.vapid.Some? && VAPID_PRIVATE in config && config[VAPID_PRIVATE] == StrV("")
  }

  function ProvisionKey(a: Scan, env: Env): Scan {
    if NeedsKey(a.config) then
      a.(config := a.config[API_KEY := StrV(env.genKey)],
         lines := Upsert(a.lines, API_KEY, env.genKey, env.keyBlock), rewrite := true)
    else a
  }

  function ProvisionVapid(a: Scan, env: Env): Scan {
    if NeedsVapid(a.config, env) then
      var (priv, pub) := env.vapid.value;
      var some := FindField(a.lines, VAPID_PUBLIC) < |a.lines| || FindField(a.lines, VAPID_PRIVATE) < |a.lines|;
      var withPublic := Upsert(a.lines, VAPID_PUBLIC, pub, if some then [] else env.vapidBlock);
      a.(config := a.config[VAPID_PRIVATE := StrV(priv)][VAPID_PUBLIC := StrV(pub)],
         lines := Upsert(withPublic, VAPID_PRIVATE, priv, []), rewrite := true)
    else a
  }

  /** A whole process start on the given lines. `rewrite` says whether `lines` is written back. */
  function Parse(defaults: Config, lines: seq<string>, env: Env): Scan {
    ProvisionVapid(ProvisionKey(ScanLines(Scan(map[], defaults, [], false), lines, 0, env), env), env)
  }

  /** The lines on disk afterwards. */
  function OnDisk(defaults: Config, lines: seq<string>, env: Env): seq<string> {
    var p := Parse(defaults, lines, env);
    if p.rewrite then p.lines else lines
  }

  // ------------------------------------------------------------- the imperative parser

  class Loader {
    var config: Config

    constructor (defaults: Config)
      ensures config == defaults
    {
      config := defaults;
    }

    /** parse_env_file on a file's text (None: no such file): returns the credentials and the text to
        write back, if any. */
    method ParseEnvFile(text: Option<string>, env: Env) returns (users: map<string, string>, rewritten: Option<string>)
      modifies this
      ensures text.None? ==> users == map[] && rewritten.None? && config == old(config)
      ensures text.Some? ==>
                var p := Parse(old(config), SplitLines(text.value), env);
                users == p.users && config == p.config
                && rewritten == if p.rewrite then Some(Render(p.lines)) else None
    {
      hide Classify, Cast, Assign, IsHash, Strip, FieldName, Upsert, HasKey, NeedsKey, NeedsVapid;
      users := map[];
      if text.None? {
        return users, None;
      }
      var lines := SplitLines(text.value);
      ghost var start := Scan(map[], config, [], false);
      var needsRewrite, newLines := false, [];
      var i := 0;
      while i < |lines|
        invariant 0 <= i <= |lines|
        invariant ScanLines(start, lines, 0, env)
                  == ScanLines(Scan(users, config, newLines, needsRewrite), lines[i..], i, env)
      {
        var line := lines[i];
        assert lines[i..][1..] == lines[i + 1..];
        match Classify(line, config) {
          case Other =>
            newLines := newLines + [line];
          case Credential(user, value) =>
            if IsHash(value) {
              users := users[user := value];
              newLines := newLines + [line];
            } else {
              var hashed := env.hash(i, value);
              users := users[user := hashed];
              newLines := newLines + [Written(USER_PREFIX + user, hashed)];
              needsRewrite := true;
            }
          case ApiKey(value) =>
            if HasKey(config) {
              needsRewrite := true;
            } else {
              config := config[API_KEY := StrV(value)];
              newLines := newLines + [line];
            }
          case Setting(key, value) =>
            config := Assign(config, key, value, env);
            newLines := newLines + [line];
        }
        i := i + 1;
      }
      ghost var scanned := Scan(users, config, newLines, needsRewrite);
      if NeedsKey(config) {
        config := config[API_KEY := StrV(env.genKey)];
        newLines := UpsertLine(newLines, API_KEY, env.genKey, env.keyBlock);
        needsRewrite := true;
      }
      assert Scan(users, config, newLines, needsRewrite) == ProvisionKey(scanned, env);
      if NeedsVapid(config, env) {
        var (priv, pub) := env.vapid.value;
        config := config[VAPID_PRIVATE := StrV(priv)][VAPID_PUBLIC := StrV(pub)];
        var some := FindField(newLines, VAPID_PUBLIC) < |newLines| || FindField(newLines, VAPID_PRIVATE) < |newLines|;
        newLines := UpsertLine(newLines, VAPID_PUBLIC, pub, if some then [] else env.vapidBlock);
        newLines := UpsertLine(newLines, VAPID_PRIVATE, priv, []);
        needsRewrite := true;
      }
      rewritten := if needsRewrite then Some(Render(newLines)) else None;
    }

    method UpsertLine(lines: seq<string>, key: string, value: string, block: seq<string>) returns (r: seq<string>)
      ensures r == Upsert(lines, key, value, block)
    {
      var i := 0;
      while i < |lines|
        invariant 0 <= i <= |lines|
        invariant forall j :: 0 <= j < i ==> FieldName(lines[j]) != key
      {
        if FieldName(lines[i]) == key {
          FindFieldIs(lines, key, i);
          return lines[i := Written(key, value)];
        }
        i := i + 1;
      }
      return lines + block + [Written(key, value)];
    }
  }

  lemma FindFieldIs(lines: seq<string>, key: string, i: nat)
    requires i < |lines| && FieldName(lines[i]) == key && forall j :: 0 <= j < i ==> FieldName(lines[j]) != key
    ensures FindField(lines, key) == i
  {
  }

  // ------------------------------------------------------------- the two readings of a line agree

  lemma EqualsIsNoSpace()
    ensures !IsSpace('=')
  {
  }

  lemma FieldSplit(line: string)
    requires '=' in line
    ensures var e := Find(line, '=');
            && e < |line|
            && Strip(line) == LStrip(line[..e]) + "=" + RStrip(line[e + 1..])
            && Find(Strip(line), '=') == |LStrip(line[..e])|
  {
    hide IsSpace, LStrip, RStrip, Find;
    var e := Find(line, '=');
    var a, v := line[..e], line[e + 1..];
    EqualsIsNoSpace();
    assert line == a + ['='] + v;
    LStripAround(a, '=', v);
    RStripAround(LStrip(a), '=', v);
    LStripIsSuffix(a);
    FindIs(LStrip(a) + "=" + RStrip(v), '=', |LStrip(a)|);
  }

  /** Classification in terms of the field name: what the scan sees and what provisioning looks for. */
  function ByField(line: string, config: Config): Item {
    var name := FieldName(line);
    if '=' !in line || (name != "" && name[0] == '#') then Other
    else ByKey(name, Strip(line[Find(line, '=') + 1..]), config)
  }

  lemma ClassifyByField(line: string, config: Config)
    ensures Classify(line, config) == ByField(line, config)
  {
    hide IsSpace, LStrip, RStrip, Strip, ByKey;
    var s := Strip(line);
    if '=' in line {
      FieldSplit(line);
      var e := Find(line, '=');
      var a, v := line[..e], line[e + 1..];
      var head, tail := LStrip(a), RStrip(v);
      assert s[..|head|] == head && s[|head| + 1..] == tail;
      StripOfLStrip(a);
      StripOfRStrip(v);
      StripKeepsHead(a);
      assert head != "" ==> s[0] == head[0];
      assert head == "" ==> s[0] == '=';
    } else {
      StripAddsNothing(line, '=');
    }
  }

  // ------------------------------------------------------------- written lines read back

  /** A key and value as the parser itself would produce them. */
  predicate Plain(key: string, value: string) {
    Trimmed(key) && key != "" && key[0] != '#' && '=' !in key && Trimmed(value)
  }

  lemma WrittenReadsBack(key: string, value: string, config: Config)
    requires Plain(key, value)
    ensures FieldName(Written(key, value)) == key
    ensures Classify(Written(key, value), config) == ByKey(key, value, config)
  {
    hide Classify, IsSpace, ByKey;
    var line := Written(key, value);
    FindIs(line, '=', |key|);
    assert line[|key|] == '=';
    assert line[..|key|] == key && line[|key| + 1..] == value;
    TrimmedIsFixed(key);
    TrimmedIsFixed(value);
    ClassifyByField(line, config);
  }

  /** The hypotheses on what a start draws: hashes carry a known prefix, and nothing drawn is empty,
      has white space at its ends or breaks a line. */
  ghost predicate Good(env: Env) {
    && (forall i: nat, pw :: IsHash(env.hash(i, pw)) && Trimmed(env.hash(i, pw)) && NoBreak(env.hash(i, pw)))
    && env.genKey != "" && Trimmed(env.genKey) && NoBreak(env.genKey)
    && (env.vapid.Some? ==>
          && env.vapid.value.0 != "" && Trimmed(env.vapid.value.0) && NoBreak(env.vapid.value.0)
          && Trimmed(env.vapid.value.1) && NoBreak(env.vapid.value.1))
    && Comments(env.keyBlock) && Comments(env.vapidBlock)
  }

  /** The parts of the built-in defaults that matter here. */
  predicate Defaults(config: Config) {
    && API_KEY in config && config[API_KEY] == StrV("")
    && API_KEY_ENABLED in config
    && VAPID_PUBLIC in config && config[VAPID_PUBLIC] == StrV("")
    && VAPID_PRIVATE in config && config[VAPID_PRIVATE] == StrV("")
  }

  /** Kept by the scan: the same keys as ever, and string keys stay strings. */
  predicate Shaped(config: Config, keys: set<string>) {
    && config.Keys == keys && API_KEY in config && config[API_KEY].StrV?
    && API_KEY_ENABLED in config
    && VAPID_PUBLIC in config && config[VAPID_PUBLIC].StrV?
    && VAPID_PRIVATE in config && config[VAPID_PRIVATE].StrV?
  }

  lemma CredentialField(line: string, config: Config)
    requires Classify(line, config).Credential?
    ensures FieldName(line) == USER_PREFIX + Classify(line, config).user
    ensures Trimmed(FieldName(line)) && '=' !in FieldName(line) && Classify(line, config).user != ""
  {
    hide Classify, IsSpace;
    ClassifyByField(line, config);
    var head := line[..Find(line, '=')];
    StripIsTrimmed(head);
    StripAddsNothing(head, '=');
    var name := FieldName(line);
    assert name == name[..|USER_PREFIX|] + name[|USER_PREFIX|..];
  }

  lemma HashedCredential(line: string, config: Config, hashed: string)
    requires Classify(line, config).Credential? && Trimmed(hashed)
    ensures var user := Classify(line, config).user;
            && Classify(Written(USER_PREFIX + user, hashed), config) == Credential(user, hashed)
            && FieldName(Written(USER_PREFIX + user, hashed)) == FieldName(line)
  {
    hide Classify, IsSpace, FieldName;
    var user := Classify(line, config).user;
    CredentialField(line, config);
    var key := USER_PREFIX + user;
    WrittenReadsBack(key, hashed, config);
    assert key[..|USER_PREFIX|] == USER_PREFIX && key[|USER_PREFIX|..] == user;
  }

  // ------------------------------------------------------------- scanning twice

  ghost predicate SameCore(a: Scan, b: Scan) {
    a.users == b.users && a.config == b.config
  }

  ghost predicate SameParsers(e: Env, f: Env) {
    e.parseInt == f.parseInt && e.parseFloat == f.parseFloat
  }

  lemma CastFrom(current: Value, value: string, e: Env, f: Env)
    requires SameParsers(e, f)
    ensures Cast(current, value, e) == Cast(current, value, f)
  {
  }

  /** What a scanned line leaves behind is read back the same, with nothing more to rewrite. */
  lemma RestepKept(a: Scan, b: Scan, line: string, i: nat, j: nat, e: Env, f: Env)
    requires SameCore(a, b) && Good(e) && SameParsers(e, f)
    ensures var s := Step(a, line, i, e);
            if s.lines == a.lines then SameCore(s, b)
            else |s.lines| == |a.lines| + 1 && s.lines[..|a.lines|] == a.lines
                 && Step(b, s.lines[|a.lines|], j, f)
                    == Scan(s.users, s.config, b.lines + [s.lines[|a.lines|]], b.rewrite)
  {
    hide Classify, Cast;
    match Classify(line, a.config) {
      case Other =>
      case Credential(user, value) =>
        if !IsHash(value) {
          HashedCredential(line, a.config, e.hash(i, value));
        }
      case ApiKey(value) =>
      case Setting(key, value) =>
        CastFrom(a.config[key], value, e, f);
        assert Step(b, line, j, f).config == Step(a, line, i, e).config;
    }
  }

  /** Scanning the output of a scan reproduces it exactly, without a rewrite. */
  lemma {:induction false} ScanIsIdempotent(a: Scan, b: Scan, lines: seq<string>, i: nat, j: nat, e: Env, f: Env)
    requires SameCore(a, b) && Good(e) && SameParsers(e, f)
    ensures var r := ScanLines(a, lines, i, e);
            && |a.lines| <= |r.lines| && r.lines[..|a.lines|] == a.lines
            && ScanLines(b, r.lines[|a.lines|..], j, f)
               == Scan(r.users, r.config, b.lines + r.lines[|a.lines|..], b.rewrite)
    decreases |lines|
  {
    hide Step, Good;
    var r := ScanLines(a, lines, i, e);
    if lines == [] {
      assert r.lines[|a.lines|..] == [] && b.lines + [] == b.lines;
    } else {
      var s := Step(a, lines[0], i, e);
      RestepKept(a, b, lines[0], i, j, e, f);
      if s.lines == a.lines {
        ScanIsIdempotent(s, b, lines[1..], i + 1, j, e, f);
      } else {
        var y := s.lines[|a.lines|];
        var b' := Step(b, y, j, f);
        ScanIsIdempotent(s, b', lines[1..], i + 1, j + 1, e, f);
        var out := r.lines[|a.lines|..];
        assert r.lines[..|s.lines|] == s.lines;
        assert out[0] == y && out[1..] == r.lines[|s.lines|..];
        assert b.lines + [y] + out[1..] == b.lines + out;
        assert r.lines[..|a.lines|] == s.lines[..|a.lines|];
      }
    }
  }

  lemma StepKeepsKeys(a: Scan, line: string, i: nat, e: Env)
    requires API_KEY in a.config
    ensures Step(a, line, i, e).config.Keys == a.config.Keys
    ensures HasKey(a.config) ==> Step(a, line, i, e).config[API_KEY] == a.config[API_KEY]
  {
    hide Classify, Cast, IsHash;
  }

  lemma {:induction false} ScanKeepsKeys(a: Scan, lines: seq<string>, i: nat, e: Env)
    requires API_KEY in a.config
    ensures ScanLines(a, lines, i, e).config.Keys == a.config.Keys
    ensures HasKey(a.config) ==> ScanLines(a, lines, i, e).config[API_KEY] == a.config[API_KEY]
    decreases |lines|
  {
    hide Step;
    if lines != [] {
      StepKeepsKeys(a, lines[0], i, e);
      ScanKeepsKeys(Step(a, lines[0], i, e), lines[1..], i + 1, e);
    }
  }

  lemma {:induction false} ScanConcat(a: Scan, p: seq<string>, q: seq<string>, i: nat, e: Env)
    ensures ScanLines(a, p + q, i, e) == ScanLines(ScanLines(a, p, i, e), q, i + |p|, e)
    decreases |p|
  {
    hide Step;
    if p == [] {
      assert p + q == q;
    } else {
      assert (p + q)[0] == p[0] && (p + q)[1..] == p[1..] + q;
      ScanConcat(Step(a, p[0], i, e), p[1..], q, i + 1, e);
    }
  }

  // ------------------------------------------------------------- filling the API key

  /** Two scans that differ only in the API key: empty in a, g in b. */
  ghost predicate KeyApart(a: Scan, b: Scan, g: string) {
    && a.users == b.users && API_KEY in a.config && a.config[API_KEY] == StrV("")
    && b.config == a.config[API_KEY := StrV(g)]
  }

  lemma AssignElsewhere(c: Config, key: string, value: string, e: Env, k: string, v: Value)
    requires key in c && k in c && key != k
    ensures Assign(c[k := v], key, value, e) == Assign(c, key, value, e)[k := v]
    ensures k in Assign(c, key, value, e) && Assign(c, key, value, e)[k] == c[k]
  {
  }

  lemma ByKeysOnly(line: string, c: Config, d: Config)
    requires c.Keys == d.Keys
    ensures Classify(line, c) == Classify(line, d)
  {
  }

  lemma KeyApartStep(a: Scan, b: Scan, line: string, i: nat, e: Env, g: string)
    requires KeyApart(a, b, g) && g != ""
    ensures HasKey(Step(a, line, i, e).config) || KeyApart(Step(a, line, i, e), Step(b, line, i, e), g)
  {
    hide Classify, IsHash, Cast, Assign;
    ByKeysOnly(line, a.config, b.config);
    match Classify(line, a.config) {
      case Other =>
      case Credential(_, _) =>
      case ApiKey(_) => assert a.config[API_KEY := StrV("")] == a.config;
      case Setting(key, value) => AssignElsewhere(a.config, key, value, e, API_KEY, StrV(g));
    }
  }

  lemma {:induction false} KeyApartScan(a: Scan, b: Scan, lines: seq<string>, i: nat, e: Env, g: string)
    requires KeyApart(a, b, g) && g != "" && !HasKey(ScanLines(a, lines, i, e).config)
    ensures KeyApart(ScanLines(a, lines, i, e), ScanLines(b, lines, i, e), g)
    decreases |lines|
  {
    hide Step;
    if lines != [] {
      var s := Step(a, lines[0], i, e);
      StepKeepsKeys(a, lines[0], i, e);
      ScanKeepsKeys(s, lines[1..], i + 1, e);
      KeyApartStep(a, b, lines[0], i, e, g);
      KeyApartScan(s, Step(b, lines[0], i, e), lines[1..], i + 1, e, g);
    }
  }

  /** The line that is filled carried no key. */
  lemma FillKeyStep(a: Scan, line: string, i: nat, e: Env, g: string)
    requires API_KEY in a.config && a.config[API_KEY] == StrV("") && FieldName(line) == API_KEY
    requires g != "" && Trimmed(g)
    ensures HasKey(Step(a, line, i, e).config) || KeyApart(Step(a, line, i, e), Step(a, Written(API_KEY, g), i, e), g)
  {
    hide Classify, FieldName, IsSpace;
    ClassifyByField(line, a.config);
    assert Plain(API_KEY, g) by { PlainNames(); }
    WrittenReadsBack(API_KEY, g, a.config);
  }

  lemma PlainNames()
    ensures forall k :: k in {API_KEY, VAPID_PUBLIC, VAPID_PRIVATE} ==>
              Trimmed(k) && k != "" && k[0] != '#' && '=' !in k && !StartsWith(k, USER_PREFIX)
  {
  }

  /** A blank or comment line says nothing and is never filled. */
  lemma CommentLine(line: string, config: Config)
    requires line == "" || line[0] == '#'
    ensures Classify(line, config) == Other
    ensures FieldName(line) == "" || FieldName(line)[0] == '#'
  {
    if line != "" {
      StripKeepsHead(line);
      StripKeepsHead(line[..Find(line, '=')]);
    }
  }

  predicate Comments(block: seq<string>) {
    forall i :: 0 <= i < |block| ==> (block[i] == "" || block[i][0] == '#') && NoBreak(block[i])
  }

  lemma {:induction false} ScanComments(a: Scan, block: seq<string>, i: nat, e: Env)
    requires Comments(block)
    ensures ScanLines(a, block, i, e) == a.(lines := a.lines + block)
    decreases |block|
  {
    hide Classify;
    if block != [] {
      CommentLine(block[0], a.config);
      ScanComments(Step(a, block[0], i, e), block[1..], i + 1, e);
      assert a.lines + [block[0]] + block[1..] == a.lines + block;
    }
  }

  lemma ReplaceSplit(lines: seq<string>, i: nat, y: string)
    requires i < |lines|
    ensures lines[i := y] == lines[..i] + ([y] + lines[i + 1..])
    ensures lines == lines[..i] + ([lines[i]] + lines[i + 1..])
  {
  }

  lemma KeyStaysEmpty(a: Scan, p: seq<string>, q: seq<string>, e: Env)
    requires API_KEY in a.config && a.config[API_KEY] == StrV("")
    requires !HasKey(ScanLines(a, p + q, 0, e).config)
    ensures var m := ScanLines(a, p, 0, e); API_KEY in m.config && m.config[API_KEY] == StrV("")
  {
    hide Step;
    ScanConcat(a, p, q, 0, e);
    var m := ScanLines(a, p, 0, e);
    ScanKeepsKeys(a, p, 0, e);
    ScanKeepsKeys(m, q, |p|, e);
  }

  lemma FillKeyFrom(m: Scan, line: string, rest: seq<string>, i: nat, e: Env, g: string)
    requires API_KEY in m.config && m.config[API_KEY] == StrV("") && FieldName(line) == API_KEY
    requires g != "" && Trimmed(g) && !HasKey(ScanLines(m, [line] + rest, i, e).config)
    ensures KeyApart(ScanLines(m, [line] + rest, i, e), ScanLines(m, [Written(API_KEY, g)] + rest, i, e), g)
  {
    hide Step, FieldName, Written;
    var y := Written(API_KEY, g);
    assert ([y] + rest)[1..] == rest && ([line] + rest)[1..] == rest;
    var s := Step(m, line, i, e);
    StepKeepsKeys(m, line, i, e);
    ScanKeepsKeys(s, rest, i + 1, e);
    FillKeyStep(m, line, i, e, g);
    KeyApartScan(s, Step(m, y, i, e), rest, i + 1, e, g);
  }

  /** Reading the file with the key filled in gives the old result plus the key. */
  lemma FilledKeyIsRead(a: Scan, lines: seq<string>, e: Env, g: string, block: seq<string>)
    requires API_KEY in a.config && a.config[API_KEY] == StrV("") && Comments(block)
    requires g != "" && Trimmed(g) && !HasKey(ScanLines(a, lines, 0, e).config)
    ensures KeyApart(ScanLines(a, lines, 0, e), ScanLines(a, Upsert(lines, API_KEY, g, block), 0, e), g)
  {
    hide Step, HasKey, FieldName, ScanLines, Written;
    var i := FindField(lines, API_KEY);
    if i < |lines| {
      var p, y, rest := lines[..i], Written(API_KEY, g), lines[i + 1..];
      ReplaceSplit(lines, i, y);
      ScanConcat(a, p, [y] + rest, 0, e);
      ScanConcat(a, p, [lines[i]] + rest, 0, e);
      KeyStaysEmpty(a, p, [lines[i]] + rest, e);
      FillKeyFrom(ScanLines(a, p, 0, e), lines[i], rest, i, e, g);
    } else {
      AppendedKeyIsRead(a, lines, e, g, block);
    }
  }

  lemma AppendedKeyIsRead(a: Scan, lines: seq<string>, e: Env, g: string, block: seq<string>)
    requires API_KEY in a.config && a.config[API_KEY] == StrV("") && Comments(block)
    requires g != "" && Trimmed(g) && !HasKey(ScanLines(a, lines, 0, e).config)
    ensures KeyApart(ScanLines(a, lines, 0, e), ScanLines(a, lines + block + [Written(API_KEY, g)], 0, e), g)
  {
    hide Step, ScanLines, Written, Comments;
    var r, y := ScanLines(a, lines, 0, e), Written(API_KEY, g);
    assert lines + [] == lines;
    KeyStaysEmpty(a, lines, [], e);
    ScanConcat(a, lines, block, 0, e);
    ScanConcat(a, lines + block, [y], 0, e);
    ScanComments(r, block, |lines|, e);
    LastStep(ScanLines(a, lines + block, 0, e), y, |lines + block|, e);
    WrittenKeyStep(ScanLines(a, lines + block, 0, e), |lines + block|, e, g);
  }

  lemma LastStep(a: Scan, line: string, i: nat, e: Env)
    ensures ScanLines(a, [line], i, e) == Step(a, line, i, e)
  {
    assert [line][1..] == [];
    assert ScanLines(Step(a, line, i, e), [], i + 1, e) == Step(a, line, i, e);
  }

  lemma WrittenKeyStep(a: Scan, i: nat, e: Env, g: string)
    requires API_KEY in a.config && a.config[API_KEY] == StrV("") && Trimmed(g)
    ensures var s := Step(a, Written(API_KEY, g), i, e);
            s.users == a.users && s.config == a.config[API_KEY := StrV(g)]
  {
    hide Classify, FieldName, IsSpace;
    PlainNames();
    WrittenReadsBack(API_KEY, g, a.config);
  }

  // ------------------------------------------------------------- filling a VAPID key

  /** The lines that name a key, in order: the value assigned, or None for a line without `=`. */
  function Trail(lines: seq<string>, key: string): seq<Option<string>> {
    if lines == [] then [] else Named(lines[0], key) + Trail(lines[1..], key)
  }

  function Named(line: string, key: string): seq<Option<string>> {
    if FieldName(line) == key then [Assigned(line)] else []
  }

  function Assigned(line: string): Option<string> {
    if '=' in line then Some(Strip(line[Find(line, '=') + 1..])) else None
  }

  /** The value of the last assignment. */
  function LastAssigned(t: seq<Option<string>>): Option<string> {
    if t == [] then None
    else if LastAssigned(t[1..]).Some? then LastAssigned(t[1..]) else t[0]
  }

  /** The value that is still assigned after the first line naming the key. */
  function Later(lines: seq<string>, key: string): Option<string> {
    var t := Trail(lines, key);
    if t == [] then None else LastAssigned(t[1..])
  }

  predicate IsVapidKey(k: string) {
    k == VAPID_PUBLIC || k == VAPID_PRIVATE
  }

  lemma NamesSetting(line: string, config: Config, k: string)
    requires IsVapidKey(k) && k in config
    ensures if FieldName(line) == k && Assigned(line).Some?
            then Classify(line, config) == Setting(k, Assigned(line).value)
            else !(Classify(line, config).Setting? && Classify(line, config).key == k)
    ensures FieldName(line) == k && Assigned(line).None? ==> Classify(line, config) == Other
  {
    hide Classify, FieldName, Strip;
    ClassifyByField(line, config);
    PlainNames();
  }

  /** Two scans that differ at most in the value of one VAPID key. */
  ghost predicate Apart(a: Scan, b: Scan, k: string) {
    && a.users == b.users && a.config.Keys == b.config.Keys && API_KEY in a.config
    && k in a.config && a.config[k].StrV? && b.config[k].StrV? && b.config == a.config[k := b.config[k]]
  }

  lemma ApartAssign(a: Scan, b: Scan, key: string, value: string, e: Env, k: string)
    requires Apart(a, b, k) && IsVapidKey(k) && key in a.config && key != API_KEY
    ensures var c, d := Assign(a.config, key, value, e), Assign(b.config, key, value, e);
            && Apart(a.(config := c), b.(config := d), k)
            && (if key == k then c[k] == d[k] == StrV(value) else c[k] == a.config[k] && d[k] == b.config[k])
  {
    if key != k {
      hide Cast, Assign;
      AssignElsewhere(a.config, key, value, e, k, b.config[k]);
      AssignElsewhere(b.config, key, value, e, k, b.config[k]);
      AssignElsewhere(a.config, key, value, e, k, a.config[k]);
      AssignKeepsKeys(a.config, key, value, e);
    }
  }

  lemma AssignKeepsKeys(c: Config, key: string, value: string, e: Env)
    requires key in c
    ensures Assign(c, key, value, e).Keys == c.Keys
  {
  }

  lemma ApartStep(a: Scan, b: Scan, line: string, i: nat, e: Env, k: string)
    requires Apart(a, b, k) && IsVapidKey(k)
    ensures var s, t := Step(a, line, i, e), Step(b, line, i, e);
            && Apart(s, t, k)
            && (if FieldName(line) == k && Assigned(line).Some?
                then s.config[k] == t.config[k] == StrV(Assigned(line).value)
                else s.config[k] == a.config[k] && t.config[k] == b.config[k])
  {
    hide Classify, FieldName, IsHash, Assigned, Cast, Assign;
    NamesSetting(line, a.config, k);
    ByKeysOnly(line, a.config, b.config);
    match Classify(line, a.config) {
      case Other =>
      case Credential(_, _) =>
      case ApiKey(_) =>
      case Setting(key, value) => ApartAssign(a, b, key, value, e, k);
    }
  }

  lemma {:induction false} ApartScan(a: Scan, b: Scan, lines: seq<string>, i: nat, e: Env, k: string)
    requires Apart(a, b, k) && IsVapidKey(k)
    ensures var s, t, last := ScanLines(a, lines, i, e), ScanLines(b, lines, i, e), LastAssigned(Trail(lines, k));
            && Apart(s, t, k)
            && (if last.Some? then s.config[k] == t.config[k] == StrV(last.value)
                else s.config[k] == a.config[k] && t.config[k] == b.config[k])
    decreases |lines|
  {
    hide Step, Assigned, FieldName;
    if lines != [] {
      ApartStep(a, b, lines[0], i, e, k);
      ApartScan(Step(a, lines[0], i, e), Step(b, lines[0], i, e), lines[1..], i + 1, e, k);
      var rest := Trail(lines[1..], k);
      if FieldName(lines[0]) == k {
        assert ([Assigned(lines[0])] + rest)[1..] == rest;
      } else {
        assert Trail(lines, k) == rest;
      }
    }
  }

  lemma {:induction false} TrailConcat(p: seq<string>, q: seq<string>, k: string)
    ensures Trail(p + q, k) == Trail(p, k) + Trail(q, k)
  {
    hide Named;
    if p == [] {
      assert p + q == q;
    } else {
      assert (p + q)[0] == p[0] && (p + q)[1..] == p[1..] + q;
      TrailConcat(p[1..], q, k);
      assert Named(p[0], k) + (Trail(p[1..], k) + Trail(q, k)) == Named(p[0], k) + Trail(p[1..], k) + Trail(q, k);
    }
  }

  lemma {:induction false} NoTrail(lines: seq<string>, k: string)
    requires forall i :: 0 <= i < |lines| ==> FieldName(lines[i]) != k
    ensures Trail(lines, k) == []
  {
    hide FieldName;
    if lines != [] {
      NoTrail(lines[1..], k);
    }
  }

  lemma {:induction false} CommentsNameNothing(block: seq<string>, k: string)
    requires Comments(block) && k != "" && k[0] != '#'
    ensures forall i :: 0 <= i < |block| ==> FieldName(block[i]) != k
  {
    hide FieldName;
    forall i | 0 <= i < |block|
      ensures FieldName(block[i]) != k
    {
      CommentLine(block[i], map[]);
    }
  }

  lemma WrittenSettingStep(a: Scan, i: nat, e: Env, k: string, v: string)
    requires IsVapidKey(k) && k in a.config && a.config[k].StrV? && Trimmed(v)
    ensures var s := Step(a, Written(k, v), i, e); s.users == a.users && s.config == a.config[k := StrV(v)]
  {
    hide Classify, FieldName, IsSpace;
    PlainNames();
    WrittenReadsBack(k, v, a.config);
  }

  /** Reading the file with a VAPID line filled in: the value read back is the new one exactly unless a
      later line still assigns another. */
  lemma FilledSettingIsRead(a: Scan, lines: seq<string>, e: Env, k: string, v: string, block: seq<string>)
    requires IsVapidKey(k) && k in a.config && a.config[k].StrV? && API_KEY in a.config
    requires Trimmed(v) && Comments(block)
    ensures var r, t := ScanLines(a, lines, 0, e), ScanLines(a, Upsert(lines, k, v, block), 0, e);
            Apart(r, t, k) && t.config[k] == StrV(Later(lines, k).GetOr(v))
    ensures Later(lines, k).Some? ==> ScanLines(a, lines, 0, e).config[k] == StrV(Later(lines, k).value)
  {
    hide Step, FieldName, ScanLines, Written, Comments, Assigned, Apart, Trail;
    if FindField(lines, k) < |lines| {
      FoundSettingIsRead(a, lines, e, k, v, block);
    } else {
      NoTrail(lines, k);
      AppendedSettingIsRead(a, lines, e, k, v, block);
    }
  }

  lemma FoundSettingIsRead(a: Scan, lines: seq<string>, e: Env, k: string, v: string, block: seq<string>)
    requires IsVapidKey(k) && k in a.config && a.config[k].StrV? && API_KEY in a.config
    requires Trimmed(v) && FindField(lines, k) < |lines|
    ensures var r, t := ScanLines(a, lines, 0, e), ScanLines(a, Upsert(lines, k, v, block), 0, e);
            && Apart(r, t, k) && t.config[k] == StrV(Later(lines, k).GetOr(v))
            && (Later(lines, k).Some? ==> r.config[k] == StrV(Later(lines, k).value))
  {
    hide Step, FieldName, ScanLines, Written, Assigned, Apart, Trail, Later, LastAssigned;
    var i := FindField(lines, k);
    var p, y, rest := lines[..i], Written(k, v), lines[i + 1..];
    ReplaceSplit(lines, i, y);
    ScanConcat(a, p, [y] + rest, 0, e);
    ScanConcat(a, p, [lines[i]] + rest, 0, e);
    LaterIsRest(lines, k);
    PrefixApart(a, p, e, k);
    FillSettingFrom(ScanLines(a, p, 0, e), lines[i], rest, i, e, k, v);
  }

  lemma LaterIsRest(lines: seq<string>, k: string)
    requires FindField(lines, k) < |lines|
    ensures Later(lines, k) == LastAssigned(Trail(lines[FindField(lines, k) + 1..], k))
  {
    hide FieldName, Assigned, Trail, LastAssigned;
    var i := FindField(lines, k);
    var p, rest := lines[..i], lines[i + 1..];
    ReplaceSplit(lines, i, lines[i]);
    NoTrail(p, k);
    TrailConcat(p, [lines[i]] + rest, k);
    TrailCons(lines[i], rest, k);
    assert Trail(lines, k) == [Assigned(lines[i])] + Trail(rest, k);
    assert Trail(lines, k)[1..] == Trail(rest, k);
  }

  lemma TrailCons(line: string, rest: seq<string>, k: string)
    ensures FieldName(line) == k ==> Trail([line] + rest, k) == [Assigned(line)] + Trail(rest, k)
    ensures FieldName(line) != k ==> Trail([line] + rest, k) == Trail(rest, k)
  {
    hide FieldName, Assigned;
    assert ([line] + rest)[1..] == rest;
  }

  lemma PrefixApart(a: Scan, p: seq<string>, e: Env, k: string)
    requires IsVapidKey(k) && k in a.config && a.config[k].StrV? && API_KEY in a.config
    ensures var m := ScanLines(a, p, 0, e); k in m.config && m.config[k].StrV? && API_KEY in m.config
  {
    assert a.config == a.config[k := a.config[k]];
    ApartScan(a, a, p, 0, e, k);
  }

  lemma FillSettingFrom(m: Scan, line: string, rest: seq<string>, i: nat, e: Env, k: string, v: string)
    requires IsVapidKey(k) && k in m.config && m.config[k].StrV? && API_KEY in m.config
    requires FieldName(line) == k && Trimmed(v)
    ensures var r, t := ScanLines(m, [line] + rest, i, e), ScanLines(m, [Written(k, v)] + rest, i, e);
            var last := LastAssigned(Trail(rest, k));
            && Apart(r, t, k) && t.config[k] == StrV(last.GetOr(v))
            && (last.Some? ==> r.config[k] == StrV(last.value))
  {
    hide Step, FieldName, Written, Assigned;
    var y := Written(k, v);
    assert ([y] + rest)[1..] == rest && ([line] + rest)[1..] == rest;
    assert m.config == m.config[k := m.config[k]];
    ApartStep(m, m, line, i, e, k);
    WrittenSettingStep(m, i, e, k, v);
    FilledLineIsQuiet(m, line, i, e, k);
    ApartScan(Step(m, line, i, e), Step(m, y, i, e), rest, i + 1, e, k);
  }

  /** A line naming the key changes nothing but its value. */
  lemma FilledLineIsQuiet(m: Scan, line: string, i: nat, e: Env, k: string)
    requires IsVapidKey(k) && k in m.config && m.config[k].StrV? && FieldName(line) == k
    ensures var s := Step(m, line, i, e);
            s.users == m.users && k in s.config && s.config == m.config[k := s.config[k]] && s.config[k].StrV?
  {
    hide Classify, FieldName, Assigned;
    NamesSetting(line, m.config, k);
    assert m.config == m.config[k := m.config[k]];
  }

  lemma AppendedSettingIsRead(a: Scan, lines: seq<string>, e: Env, k: string, v: string, block: seq<string>)
    requires IsVapidKey(k) && k in a.config && a.config[k].StrV? && API_KEY in a.config
    requires Trimmed(v) && Comments(block)
    ensures var r, t := ScanLines(a, lines, 0, e), ScanLines(a, lines + block + [Written(k, v)], 0, e);
            Apart(r, t, k) && t.config[k] == StrV(v)
  {
    hide Step, ScanLines, Written, Comments;
    var r, y := ScanLines(a, lines, 0, e), Written(k, v);
    PrefixApart(a, lines, e, k);
    ScanConcat(a, lines, block, 0, e);
    ScanConcat(a, lines + block, [y], 0, e);
    ScanComments(r, block, |lines|, e);
    LastStep(ScanLines(a, lines + block, 0, e), y, |lines + block|, e);
    WrittenSettingStep(ScanLines(a, lines + block, 0, e), |lines + block|, e, k, v);
  }

  // ------------------------------------------------------------- what the other rewrites leave alone

  /** Filling another key's line does not touch the lines naming k. */
  lemma UpsertKeepsTrail(lines: seq<string>, key: string, v: string, block: seq<string>, k: string)
    requires key != k && k != "" && k[0] != '#' && Plain(key, v) && Comments(block)
    ensures Trail(Upsert(lines, key, v, block), k) == Trail(lines, k)
  {
    hide FieldName, Written, Comments;
    var i, y := FindField(lines, key), Written(key, v);
    WrittenReadsBack(key, v, map[]);
    if i < |lines| {
      var rest := lines[i + 1..];
      ReplaceSplit(lines, i, y);
      TrailConcat(lines[..i], [y] + rest, k);
      TrailConcat(lines[..i], [lines[i]] + rest, k);
      TrailCons(y, rest, k);
      TrailCons(lines[i], rest, k);
    } else {
      CommentsNameNothing(block, k);
      NoTrail(block, k);
      TrailConcat(lines, block, k);
      TrailConcat(lines + block, [y], k);
      NoTrail([y], k);
    }
  }

  lemma StepKeepsTrail(a: Scan, line: string, i: nat, e: Env, k: string)
    requires IsVapidKey(k) && Good(e)
    ensures var s := Step(a, line, i, e);
            if s.lines == a.lines then FieldName(line) != k
            else |s.lines| == |a.lines| + 1 && s.lines[..|a.lines|] == a.lines
                 && Trail(s.lines[|a.lines|..], k) == Trail([line], k)
  {
    hide Classify, FieldName, Cast, Assign, Assigned;
    ClassifyByField(line, a.config);
    PlainNames();
    match Classify(line, a.config) {
      case Other =>
      case Credential(user, value) =>
        if !IsHash(value) {
          HashedCredential(line, a.config, e.hash(i, value));
          CredentialField(line, a.config);
          var y := Written(USER_PREFIX + user, e.hash(i, value));
          assert StartsWith(FieldName(line), USER_PREFIX);
          NoTrail([line], k);
          NoTrail([y], k);
        }
      case ApiKey(value) => ApiKeyField(line, a.config);
      case Setting(key, value) =>
    }
  }

  lemma ApiKeyField(line: string, config: Config)
    requires Classify(line, config).ApiKey?
    ensures FieldName(line) == API_KEY
  {
    hide Classify, FieldName;
    ClassifyByField(line, config);
  }

  lemma StepTrail(a: Scan, line: string, i: nat, e: Env, k: string)
    requires IsVapidKey(k) && Good(e)
    ensures Trail(Step(a, line, i, e).lines, k) == Trail(a.lines, k) + Trail([line], k)
  {
    hide Step, FieldName, Good, Assigned;
    var s := Step(a, line, i, e);
    StepKeepsTrail(a, line, i, e, k);
    if s.lines == a.lines {
      NoTrail([line], k);
    } else {
      assert s.lines == a.lines + s.lines[|a.lines|..];
      TrailConcat(a.lines, s.lines[|a.lines|..], k);
    }
  }

  /** The scan keeps every line naming a VAPID key. */
  lemma {:induction false} ScanKeepsTrail(a: Scan, lines: seq<string>, i: nat, e: Env, k: string)
    requires IsVapidKey(k) && Good(e)
    ensures Trail(ScanLines(a, lines, i, e).lines, k) == Trail(a.lines, k) + Trail(lines, k)
    decreases |lines|
  {
    hide Step, Good, Trail;
    var before := Trail(a.lines, k);
    if lines == [] {
      NoTrail(lines, k);
      assert before + [] == before;
    } else {
      var line, rest := lines[0], lines[1..];
      StepTrail(a, line, i, e, k);
      ScanKeepsTrail(Step(a, line, i, e), rest, i + 1, e, k);
      TrailJoin(lines, k);
      Regroup(before, Trail([line], k), Trail(rest, k));
    }
  }

  lemma TrailJoin(lines: seq<string>, k: string)
    requires lines != []
    ensures Trail(lines, k) == Trail([lines[0]], k) + Trail(lines[1..], k)
  {
    hide Trail;
    TrailConcat([lines[0]], lines[1..], k);
    assert lines == [lines[0]] + lines[1..];
  }

  lemma Regroup(a: seq<Option<string>>, b: seq<Option<string>>, c: seq<Option<string>>)
    ensures a + b + c == a + (b + c)
  {
  }

  // ------------------------------------------------------------- no plaintext, and what a rescan drops

  /** Every credential line carries a hash. */
  predicate AllHashed(lines: seq<string>, config: Config) {
    forall i :: 0 <= i < |lines| && Classify(lines[i], config).Credential? ==> IsHash(Classify(lines[i], config).value)
  }

  /** Without the API_KEY lines that follow the first one with a value. */
  function DropDuplicates(lines: seq<string>, have: bool, config: Config): seq<string> {
    if lines == [] then []
    else
      match Classify(lines[0], config)
      case ApiKey(value) =>
        if have then DropDuplicates(lines[1..], true, config)
        else [lines[0]] + DropDuplicates(lines[1..], value != "", config)
      case _ => [lines[0]] + DropDuplicates(lines[1..], have, config)
  }

  lemma {:induction false} QuietScan(a: Scan, lines: seq<string>, i: nat, e: Env)
    requires API_KEY in a.config
    ensures var r := ScanLines(a, lines, i, e);
            && (a.rewrite ==> r.rewrite)
            && (!r.rewrite ==> r.lines == a.lines + lines && AllHashed(lines, a.config))
    decreases |lines|
  {
    hide Classify, IsHash, Cast, Assign;
    if lines == [] {
      assert a.lines + [] == a.lines;
    } else {
      var s, rest := Step(a, lines[0], i, e), lines[1..];
      StepKeepsKeys(a, lines[0], i, e);
      QuietScan(s, rest, i + 1, e);
      if !ScanLines(s, rest, i + 1, e).rewrite {
        HashedCons(lines, a.config, s.config);
        assert a.lines + [lines[0]] + rest == a.lines + lines;
      }
    }
  }

  lemma HashedCons(lines: seq<string>, c: Config, d: Config)
    requires lines != [] && c.Keys == d.Keys && AllHashed(lines[1..], d)
    requires Classify(lines[0], c).Credential? ==> IsHash(Classify(lines[0], c).value)
    ensures AllHashed(lines, c)
  {
    hide Classify, IsHash;
    forall i | 0 <= i < |lines| && Classify(lines[i], c).Credential?
      ensures IsHash(Classify(lines[i], c).value)
    {
      ByKeysOnly(lines[i], c, d);
      assert i > 0 ==> lines[i] == lines[1..][i - 1];
    }
  }

  lemma UpsertKeepsHashed(lines: seq<string>, key: string, v: string, block: seq<string>, config: Config)
    requires AllHashed(lines, config) && Comments(block) && key in {API_KEY, VAPID_PUBLIC, VAPID_PRIVATE} && Trimmed(v)
    ensures AllHashed(Upsert(lines, key, v, block), config)
  {
    hide Classify, IsHash, FieldName, Written;
    PlainNames();
    WrittenReadsBack(key, v, config);
    var out := Upsert(lines, key, v, block);
    forall i | 0 <= i < |out| && Classify(out[i], config).Credential?
      ensures IsHash(Classify(out[i], config).value)
    {
      if out[i] in block {
        CommentLine(out[i], config);
      }
      assert out[i] in lines;
    }
  }

  /** A rescan of hashed lines keeps everything but the duplicate API_KEY lines. */
  lemma {:induction false} ScanOfHashed(a: Scan, lines: seq<string>, i: nat, e: Env, keys: Config)
    requires API_KEY in a.config && a.config[API_KEY].StrV? && a.config.Keys == keys.Keys && AllHashed(lines, keys)
    ensures var r := ScanLines(a, lines, i, e);
            && r.lines == a.lines + DropDuplicates(lines, HasKey(a.config), keys)
    decreases |lines|
  {
    hide Classify, IsHash, Cast;
    if lines == [] {
      assert a.lines + [] == a.lines;
    } else {
      var s, rest := Step(a, lines[0], i, e), lines[1..];
      ByKeysOnly(lines[0], a.config, keys);
      StepKeepsKeys(a, lines[0], i, e);
      assert forall j :: 0 <= j < |rest| ==> rest[j] == lines[j + 1];
      ScanOfHashed(s, rest, i + 1, e, keys);
      var have := HasKey(s.config);
      var more := DropDuplicates(rest, have, keys);
      assert a.lines + [lines[0]] + more == a.lines + ([lines[0]] + more);
    }
  }

  // ------------------------------------------------------------- the restart cycle

  function Start(defaults: Config): Scan {
    Scan(map[], defaults, [], false)
  }

  function Keyed(defaults: Config, lines: seq<string>, e: Env): Scan {
    ProvisionKey(ScanLines(Start(defaults), lines, 0, e), e)
  }

  /** This start generates a VAPID pair. */
  predicate Generates(defaults: Config, lines: seq<string>, e: Env): (g: bool)
    ensures g ==> e.vapid.Some?
  {
    NeedsVapid(Keyed(defaults, lines, e).config, e)
  }

  /** What the next start draws: push does not become available in between, and keys are fresh. */
  ghost predicate NextStart(e: Env, f: Env) {
    && Good(e) && Good(f) && SameParsers(e, f)
    && (f.vapid.Some? ==> e.vapid.Some? && f.vapid.value.0 != e.vapid.value.0)
  }

  lemma ScanStage(defaults: Config, lines: seq<string>, e: Env, f: Env)
    requires Defaults(defaults) && Good(e) && SameParsers(e, f)
    ensures var r := ScanLines(Start(defaults), lines, 0, e);
            && ScanLines(Start(defaults), r.lines, 0, f) == r.(rewrite := false)
            && AllHashed(r.lines, defaults)
            && Trail(r.lines, VAPID_PUBLIC) == Trail(lines, VAPID_PUBLIC)
            && Trail(r.lines, VAPID_PRIVATE) == Trail(lines, VAPID_PRIVATE)
            && (!r.rewrite ==> r.lines == lines)
            && Shaped(r.config, defaults.Keys)
  {
    hide ScanLines, Good, AllHashed, Trail;
    var a := Start(defaults);
    var r := ScanLines(a, lines, 0, e);
    ScanIsIdempotent(a, a, lines, 0, 0, e, f);
    assert r.lines[0..] == r.lines && [] + r.lines == r.lines;
    QuietScan(a, r.lines, 0, f);
    QuietScan(a, lines, 0, e);
    assert [] + lines == lines;
    forall k | IsVapidKey(k)
      ensures Trail(r.lines, k) == Trail(lines, k)
    {
      ScanKeepsTrail(a, lines, 0, e, k);
      NoTrail(a.lines, k);
      assert [] + Trail(lines, k) == Trail(lines, k);
    }
    ScanKeepsKeys(a, lines, 0, e);
    ScanKeepsShape(a, lines, 0, e);
  }

  lemma {:induction false} ScanKeepsShape(a: Scan, lines: seq<string>, i: nat, e: Env)
    requires Shaped(a.config, a.config.Keys)
    ensures Shaped(ScanLines(a, lines, i, e).config, a.config.Keys)
    decreases |lines|
  {
    if lines != [] {
      StepKeepsShape(a, lines[0], i, e);
      hide Step;
      ScanKeepsShape(Step(a, lines[0], i, e), lines[1..], i + 1, e);
    }
  }

  lemma StepKeepsShape(a: Scan, line: string, i: nat, e: Env)
    requires Shaped(a.config, a.config.Keys)
    ensures Shaped(Step(a, line, i, e).config, a.config.Keys)
  {
    hide Classify, IsHash;
    StepKeepsKeys(a, line, i, e);
  }

  lemma KeyStage(defaults: Config, lines: seq<string>, e: Env, f: Env)
    requires Defaults(defaults) && Good(e) && SameParsers(e, f)
    ensures var k := Keyed(defaults, lines, e);
            var s := ScanLines(Start(defaults), k.lines, 0, f);
            && s.users == k.users && s.config == k.config
            && AllHashed(k.lines, defaults)
            && Trail(k.lines, VAPID_PUBLIC) == Trail(lines, VAPID_PUBLIC)
            && Trail(k.lines, VAPID_PRIVATE) == Trail(lines, VAPID_PRIVATE)
            && (!k.rewrite ==> k.lines == lines)
            && Shaped(k.config, defaults.Keys) && !NeedsKey(k.config)
  {
    hide ScanLines, AllHashed, Trail, Upsert;
    ScanStage(defaults, lines, e, f);
    var r := ScanLines(Start(defaults), lines, 0, e);
    if NeedsKey(r.config) {
      PlainNames();
      FilledKeyIsRead(Start(defaults), r.lines, f, e.genKey, e.keyBlock);
      UpsertKeepsHashed(r.lines, API_KEY, e.genKey, e.keyBlock, defaults);
      UpsertKeepsTrail(r.lines, API_KEY, e.genKey, e.keyBlock, VAPID_PUBLIC);
      UpsertKeepsTrail(r.lines, API_KEY, e.genKey, e.keyBlock, VAPID_PRIVATE);
    }
  }

  /** What the next start reads from the file this one leaves. */
  lemma VapidStage(defaults: Config, lines: seq<string>, e: Env, f: Env)
    requires Defaults(defaults) && Good(e) && SameParsers(e, f)
    ensures var p, k := Parse(defaults, lines, e), Keyed(defaults, lines, e);
            var s := ScanLines(Start(defaults), p.lines, 0, f);
            && s.users == p.users && AllHashed(p.lines, defaults) && OnDisk(defaults, lines, e) == p.lines
            && (!Generates(defaults, lines, e) ==> p == k && s.config == k.config)
            && (Generates(defaults, lines, e) ==>
                  s.config == k.config[VAPID_PUBLIC := StrV(Later(lines, VAPID_PUBLIC).GetOr(e.vapid.value.1))]
                                      [VAPID_PRIVATE := StrV(Later(lines, VAPID_PRIVATE).GetOr(e.vapid.value.0))])
            && (Generates(defaults, lines, e) && Later(lines, VAPID_PRIVATE).Some? ==>
                Later(lines, VAPID_PRIVATE) == Some(""))
  {
    hide ScanLines, AllHashed, Trail, Upsert;
    KeyStage(defaults, lines, e, f);
    var k := Keyed(defaults, lines, e);
    if Generates(defaults, lines, e) {
      PlainNames();
      var (priv, pub) := e.vapid.value;
      var some := FindField(k.lines, VAPID_PUBLIC) < |k.lines| || FindField(k.lines, VAPID_PRIVATE) < |k.lines|;
      var block := if some then [] else e.vapidBlock;
      var half := Upsert(k.lines, VAPID_PUBLIC, pub, block);
      FilledSettingIsRead(Start(defaults), k.lines, f, VAPID_PUBLIC, pub, block);
      FilledSettingIsRead(Start(defaults), half, f, VAPID_PRIVATE, priv, []);
      UpsertKeepsTrail(k.lines, VAPID_PUBLIC, pub, block, VAPID_PRIVATE);
      UpsertKeepsHashed(k.lines, VAPID_PUBLIC, pub, block, defaults);
      UpsertKeepsHashed(half, VAPID_PRIVATE, priv, [], defaults);
    }
  }

  /** The file leaves no stale assignment behind: if this start generates a pair, no line after the
      first one naming a key still assigns it (or, for the public key, assigns the new value). */
  predicate Settles(defaults: Config, lines: seq<string>, e: Env) {
    Generates(defaults, lines, e) ==>
      && Later(lines, VAPID_PRIVATE).None?
      && Later(lines, VAPID_PUBLIC).GetOr(e.vapid.value.1) == e.vapid.value.1
  }

  /** A restart on the rewritten file finds the same credentials, always; and the same API key, VAPID
      keys and settings if and only if the file settles. A left-over private key line makes every
      start generate a new pair. */
  lemma RestartExactly(defaults: Config, lines: seq<string>, e: Env, f: Env)
    requires Defaults(defaults) && NextStart(e, f)
    ensures var p, q := Parse(defaults, lines, e), Parse(defaults, OnDisk(defaults, lines, e), f);
            && q.users == p.users
            && (q.config == p.config <==> Settles(defaults, lines, e))
            && (Settles(defaults, lines, e) ==> q == ScanLines(Start(defaults), p.lines, 0, f))
  {
    hide ScanLines, AllHashed, Trail, Later, Upsert;
    VapidStage(defaults, lines, e, f);
    KeyStage(defaults, lines, e, f);
    var p := Parse(defaults, lines, e);
    var s := ScanLines(Start(defaults), p.lines, 0, f);
    assert !NeedsKey(s.config);
    assert ProvisionKey(s, f) == s;
    if Generates(defaults, lines, e) {
      assert p.config[VAPID_PRIVATE] == StrV(e.vapid.value.0);
      assert p.config[VAPID_PUBLIC] == StrV(e.vapid.value.1);
    }
  }

  /** No plaintext password is left on disk: every credential line carries a hash. */
  lemma NoPlaintextLeft(defaults: Config, lines: seq<string>, e: Env)
    requires Defaults(defaults) && Good(e)
    ensures AllHashed(OnDisk(defaults, lines, e), defaults)
  {
    VapidStage(defaults, lines, e, e);
  }

  /** The cycle ends: the second start only drops duplicate API_KEY lines, and the third rewrites nothing. */
  lemma FileReachesFixedPoint(defaults: Config, lines: seq<string>, e: Env, f: Env, g: Env)
    requires Defaults(defaults) && NextStart(e, f) && NextStart(f, g) && Settles(defaults, lines, e)
    ensures var once := OnDisk(defaults, lines, e);
            var twice := OnDisk(defaults, once, f);
            && twice == DropDuplicates(once, false, defaults)
            && !Parse(defaults, twice, g).rewrite && OnDisk(defaults, twice, g) == twice
            && Parse(defaults, twice, g).config == Parse(defaults, lines, e).config
            && Parse(defaults, twice, g).users == Parse(defaults, lines, e).users
  {
    hide ScanLines, AllHashed, Trail, Upsert, DropDuplicates;
    var once := OnDisk(defaults, lines, e);
    RestartExactly(defaults, lines, e, f);
    VapidStage(defaults, lines, e, f);
    VapidStage(defaults, once, f, g);
    ScanStage(defaults, once, f, g);
    var s := ScanLines(Start(defaults), once, 0, f);
    ScanOfHashed(Start(defaults), once, 0, f, defaults);
    assert [] + DropDuplicates(once, false, defaults) == DropDuplicates(once, false, defaults);
    NothingToProvision(defaults, lines, e, f, g);
  }

  lemma NothingToProvision(defaults: Config, lines: seq<string>, e: Env, f: Env, g: Env)
    requires Defaults(defaults) && NextStart(e, f) && NextStart(f, g) && Settles(defaults, lines, e)
    ensures var p := Parse(defaults, lines, e); !NeedsKey(p.config) && !NeedsVapid(p.config, g)
  {
    hide ScanLines, AllHashed, Trail, Later, Upsert;
    KeyStage(defaults, lines, e, f);
  }

  /** Filling the first line naming a key leaves what later lines assign. */
  lemma UpsertKeepsLater(lines: seq<string>, k: string, v: string, block: seq<string>)
    requires Plain(k, v) && Later(lines, k).Some?
    ensures Later(Upsert(lines, k, v, block), k) == Later(lines, k)
  {
    hide FieldName, Written, Plain, Trail, LastAssigned, Later;
    LaterNeedsField(lines, k);
    var i, y := FindField(lines, k), Written(k, v);
    var out := lines[i := y];
    WrittenReadsBack(k, v, map[]);
    FindFieldIs(out, k, i);
    LaterIsRest(lines, k);
    LaterIsRest(out, k);
    assert out[i + 1..] == lines[i + 1..];
  }

  lemma LaterNeedsField(lines: seq<string>, k: string)
    requires Later(lines, k).Some?
    ensures FindField(lines, k) < |lines|
  {
    hide FieldName;
    if FindField(lines, k) == |lines| { NoTrail(lines, k); }
  }

  /** After a start that generated a pair, the next one generates again if and only if a line after the
      first one naming the private key still assigns it; and then it leaves that line as it was. */
  lemma NextStartGeneratesExactly(defaults: Config, lines: seq<string>, e: Env, f: Env)
    requires Defaults(defaults) && NextStart(e, f) && Generates(defaults, lines, e) && f.vapid.Some?
    ensures var disk := OnDisk(defaults, lines, e);
            && (Generates(defaults, disk, f) <==> Later(lines, VAPID_PRIVATE).Some?)
            && (Later(lines, VAPID_PRIVATE).Some? ==>
                Later(disk, VAPID_PRIVATE) == Later(lines, VAPID_PRIVATE) == Some(""))
  {
    hide ScanLines, AllHashed, Later, Upsert;
    VapidStage(defaults, lines, e, f);
    KeyStage(defaults, lines, e, f);
    var s := ScanLines(Start(defaults), Parse(defaults, lines, e).lines, 0, f);
    assert !NeedsKey(s.config);
    if Later(lines, VAPID_PRIVATE).Some? {
      GeneratedFileKeepsLater(defaults, lines, e);
    }
  }

  lemma GeneratedFileKeepsLater(defaults: Config, lines: seq<string>, e: Env)
    requires Defaults(defaults) && Good(e) && Generates(defaults, lines, e) && Later(lines, VAPID_PRIVATE).Some?
    ensures Later(Parse(defaults, lines, e).lines, VAPID_PRIVATE) == Later(lines, VAPID_PRIVATE)
  {
    hide ScanLines, AllHashed, Trail, Upsert;
    KeyStage(defaults, lines, e, e);
    PlainNames();
    var k := Keyed(defaults, lines, e);
    var (priv, pub) := e.vapid.value;
    var some := FindField(k.lines, VAPID_PUBLIC) < |k.lines| || FindField(k.lines, VAPID_PRIVATE) < |k.lines|;
    var block := if some then [] else e.vapidBlock;
    UpsertKeepsTrail(k.lines, VAPID_PUBLIC, pub, block, VAPID_PRIVATE);
    UpsertKeepsLater(Upsert(k.lines, VAPID_PUBLIC, pub, block), VAPID_PRIVATE, priv, []);
  }

  /** The file after a number of starts. */
  function AfterStarts(defaults: Config, lines: seq<string>, es: seq<Env>): seq<string> {
    if es == [] then lines
    else OnDisk(defaults, AfterStarts(defaults, lines, es[..|es| - 1]), es[|es| - 1])
  }

  /** With such a left-over line every start, however many there are, generates a new pair and uses it. */
  lemma {:induction false} EveryStartGenerates(defaults: Config, lines: seq<string>, es: seq<Env>, i: nat)
    requires Defaults(defaults) && i < |es| && forall j :: 0 <= j < |es| ==> es[j].vapid.Some? && Good(es[j])
    requires forall j :: 0 <= j < |es| - 1 ==> NextStart(es[j], es[j + 1])
    requires Generates(defaults, lines, es[0]) && Later(lines, VAPID_PRIVATE).Some?
    ensures var disk := AfterStarts(defaults, lines, es[..i]);
            && Generates(defaults, disk, es[i])
            && Later(disk, VAPID_PRIVATE) == Later(lines, VAPID_PRIVATE)
            && VAPID_PRIVATE in Parse(defaults, disk, es[i]).config
            && Parse(defaults, disk, es[i]).config[VAPID_PRIVATE] == StrV(es[i].vapid.value.0)
  {
    hide ScanLines, Later, Upsert, Good, Parse, OnDisk, Generates, Defaults;
    if i > 0 {
      EveryStartGenerates(defaults, lines, es, i - 1);
      assert es[..i][..i - 1] == es[..i - 1];
      assert NextStart(es[i - 1], es[i - 1 + 1]);
      NextStartGeneratesExactly(defaults, AfterStarts(defaults, lines, es[..i - 1]), es[i - 1], es[i]);
    }
    GeneratedIsUsed(defaults, AfterStarts(defaults, lines, es[..i]), es[i]);
  }

  lemma GeneratedIsUsed(defaults: Config, lines: seq<string>, e: Env)
    requires Generates(defaults, lines, e)
    ensures VAPID_PRIVATE in Parse(defaults, lines, e).config
    ensures Parse(defaults, lines, e).config[VAPID_PRIVATE] == StrV(e.vapid.value.0)
  {
    hide ScanLines, Upsert;
  }

  /** A left-over public line does not settle either, but quietly: the next start reads the generated
      private key with the public key of that line. */
  lemma ShadowedPublicKeyIsRead(defaults: Config, lines: seq<string>, e: Env, f: Env)
    requires Defaults(defaults) && NextStart(e, f) && Generates(defaults, lines, e) && Later(lines, VAPID_PRIVATE).None?
    ensures var q := Parse(defaults, OnDisk(defaults, lines, e), f);
            && VAPID_PRIVATE in q.config && q.config[VAPID_PRIVATE] == StrV(e.vapid.value.0)
            && VAPID_PUBLIC in q.config
            && q.config[VAPID_PUBLIC] == StrV(Later(lines, VAPID_PUBLIC).GetOr(e.vapid.value.1))
  {
    hide ScanLines, AllHashed, Trail, Later, Upsert;
    VapidStage(defaults, lines, e, f);
    KeyStage(defaults, lines, e, f);
    var s := ScanLines(Start(defaults), Parse(defaults, lines, e).lines, 0, f);
    assert !NeedsKey(s.config);
  }

  /** Two empty private-key lines are such a file: the first is filled, the second is what is read. */
  lemma LeftOverKeyNeverSettles(defaults: Config, e: Env)
    requires Defaults(defaults) && Good(e) && e.vapid.Some?
    ensures var lines := [Written(VAPID_PRIVATE, ""), Written(VAPID_PRIVATE, "")];
            !Settles(defaults, lines, e) && Generates(defaults, lines, e) && Later(lines, VAPID_PRIVATE) == Some("")
  {
    hide Classify, FieldName, Written, IsSpace, Strip;
    var y := Written(VAPID_PRIVATE, "");
    var lines := [y, y];
    PlainNames();
    WrittenReadsBack(VAPID_PRIVATE, "", defaults);
    NamesSetting(y, defaults, VAPID_PRIVATE);
    assert Assigned(y) == Some("") by { EmptyAssigned(); }
    assert lines[1..] == [y] && [y][1..] == [];
    assert Trail([y], VAPID_PRIVATE) == [Some("")];
    assert Trail(lines, VAPID_PRIVATE) == [Some(""), Some("")];
    assert [Some(""), Some("")][1..] == [Some("")];
    var one: seq<Option<string>> := [Some("")];
    assert one[1..] == [] && LastAssigned(one) == Some("");
    assert Later(lines, VAPID_PRIVATE) == Some("");
    var a := Start(defaults);
    assert a.config == a.config[VAPID_PRIVATE := a.config[VAPID_PRIVATE]];
    ApartScan(a, a, lines, 0, e, VAPID_PRIVATE);
    assert LastAssigned(Trail(lines, VAPID_PRIVATE)) == Some("");
  }

  lemma EmptyAssigned()
    ensures Assigned(Written(VAPID_PRIVATE, "")) == Some("")
  {
    var y := Written(VAPID_PRIVATE, "");
    assert y[|VAPID_PRIVATE|] == '=';
    PlainNames();
    FindIs(y, '=', |VAPID_PRIVATE|);
    assert y[|VAPID_PRIVATE| + 1..] == "";
  }

  // ------------------------------------------------------------- what a start reads, line by line

  /** The line assigns a value to the key. */
  predicate Sets(line: string, key: string) {
    FieldName(line) == key && '=' in line
  }

  /** The value it assigns. */
  function ValueOf(line: string): string
    requires '=' in line
  {
    Strip(line[Find(line, '=') + 1..])
  }

  ghost predicate LastToSet(lines: seq<string>, key: string, i: nat) {
    i < |lines| && Sets(lines[i], key) && forall j :: i < j < |lines| ==> !Sets(lines[j], key)
  }

  lemma UserKey(u: string)
    ensures StartsWith(USER_PREFIX + u, USER_PREFIX) && (USER_PREFIX + u)[|USER_PREFIX|..] == u
    ensures (USER_PREFIX + u)[0] == 'U'
  {
    assert (USER_PREFIX + u)[0] == USER_PREFIX[0];
  }

  /** A line is a credential of u exactly when it assigns a value to USER_u. */
  lemma CredentialIs(line: string, config: Config, u: string)
    ensures u != "" && Sets(line, USER_PREFIX + u) <==>
              Classify(line, config).Credential? && Classify(line, config).user == u
    ensures u != "" && Sets(line, USER_PREFIX + u) ==> Classify(line, config).value == ValueOf(line)
  {
    hide Classify, FieldName, Strip;
    ClassifyByField(line, config);
    UserKey(u);
    if Classify(line, config).Credential? {
      CredentialField(line, config);
      UserKey(Classify(line, config).user);
    }
  }

  /** The credential a line sets, with its number. */
  function Stored(line: string, i: nat, e: Env): string
    requires '=' in line
  {
    if IsHash(ValueOf(line)) then ValueOf(line) else e.hash(i, ValueOf(line))
  }

  lemma StepUsers(a: Scan, line: string, i: nat, e: Env, u: string)
    ensures var users := Step(a, line, i, e).users;
            if u != "" && Sets(line, USER_PREFIX + u) then u in users && users[u] == Stored(line, i, e)
            else (u in users <==> u in a.users) && (u in users ==> users[u] == a.users[u])
  {
    hide Classify, FieldName, Cast, Assign, IsHash, Strip;
    CredentialIs(line, a.config, u);
  }

  lemma LastInRest(lines: seq<string>, key: string, k: nat)
    requires LastToSet(lines, key, k)
    ensures k > 0 ==> LastToSet(lines[1..], key, k - 1) && lines[1..][k - 1] == lines[k]
    ensures k == 0 ==> forall j :: 0 <= j < |lines[1..]| ==> !Sets(lines[1..][j], key)
  {
    hide Sets;
    assert forall j :: 0 <= j < |lines[1..]| ==> lines[1..][j] == lines[j + 1];
  }

  lemma {:induction false} ScanUsers(a: Scan, lines: seq<string>, i: nat, e: Env, u: string)
    ensures var users := ScanLines(a, lines, i, e).users;
            && (forall k: nat :: u != "" && LastToSet(lines, USER_PREFIX + u, k) ==>
                  u in users && users[u] == Stored(lines[k], i + k, e))
            && ((forall k :: 0 <= k < |lines| ==> u == "" || !Sets(lines[k], USER_PREFIX + u)) ==>
                  (u in users <==> u in a.users) && (u in users ==> users[u] == a.users[u]))
    decreases |lines|
  {
    hide Step, FieldName, Stored;
    if lines != [] {
      var rest, key := lines[1..], USER_PREFIX + u;
      var b := Step(a, lines[0], i, e);
      StepUsers(a, lines[0], i, e, u);
      ScanUsers(b, rest, i + 1, e, u);
      assert forall j :: 0 <= j < |rest| ==> rest[j] == lines[j + 1];
      forall k: nat | u != "" && LastToSet(lines, key, k)
        ensures var users := ScanLines(a, lines, i, e).users; u in users && users[u] == Stored(lines[k], i + k, e)
      {
        LastInRest(lines, key, k);
      }
    }
  }

  lemma {:induction false} LastExists(lines: seq<string>, key: string, k: nat) returns (i: nat)
    requires k < |lines| && Sets(lines[k], key)
    ensures LastToSet(lines, key, i)
    decreases |lines| - k
  {
    hide Sets;
    if j :| k < j < |lines| && Sets(lines[j], key) {
      i := LastExists(lines, key, j);
    } else {
      i := k;
    }
  }

  lemma ProvisionKeepsUsers(defaults: Config, lines: seq<string>, e: Env)
    ensures Parse(defaults, lines, e).users == ScanLines(Start(defaults), lines, 0, e).users
  {
    hide ScanLines, Upsert;
  }

  /** Who may log in after a start: u may if and only if some line assigns a value to USER_u, and then with
      the value of the last such line, if it is a hash, or the hash made of it for that line. */
  lemma UsersExactly(defaults: Config, lines: seq<string>, e: Env, u: string)
    ensures var users := Parse(defaults, lines, e).users;
            && (u in users <==> u != "" && exists k :: 0 <= k < |lines| && Sets(lines[k], "USER_" + u))
            && (forall k: nat :: u != "" && LastToSet(lines, "USER_" + u, k) ==>
                  u in users && users[u]
                  == if IsHash(ValueOf(lines[k])) then ValueOf(lines[k]) else e.hash(k, ValueOf(lines[k])))
  {
    hide Sets, ScanLines, IsHash, Parse;
    ProvisionKeepsUsers(defaults, lines, e);
    ScanUsers(Start(defaults), lines, 0, e, u);
    if u != "" {
      if k: nat :| k < |lines| && Sets(lines[k], USER_PREFIX + u) {
        var i := LastExists(lines, USER_PREFIX + u, k);
      }
    }
  }

  /** Only these two beginnings make a value a hash. */
  lemma HashExactly(value: string)
    ensures IsHash(value) <==> |value| >= 7 && (value[..7] == "scrypt:" || value[..7] == "pbkdf2:")
  {
  }

  // ------------------------------------------------------------- settings

  predicate SameKind(a: Value, b: Value) {
    (a.IntV? <==> b.IntV?) && (a.FloatV? <==> b.FloatV?)
  }

  lemma CastByKind(a: Value, b: Value, value: string, e: Env)
    requires SameKind(a, b)
    ensures Cast(a, value, e) == Cast(b, value, e)
    ensures Cast(a, value, e).Some? ==> SameKind(Cast(a, value, e).value, a)
  {
  }

  /** The text spells the word, in any mixture of cases. */
  predicate Spells(text: string, word: string) {
    |text| == |word| && forall i :: 0 <= i < |text| ==>
      text[i] == word[i] || ('a' <= word[i] <= 'z' && text[i] as int == word[i] as int - 'a' as int + 'A' as int)
  }

  /** How a setting is read: on/off words and whole numbers, numbers, or text; what cannot be read is refused. */
  lemma CastExactly(current: Value, value: string, e: Env)
    ensures current.StrV? ==> Cast(current, value, e) == Some(StrV(value))
    ensures current.FloatV? ==>
              Cast(current, value, e)
              == if e.parseFloat(value).Some? then Some(FloatV(e.parseFloat(value).value)) else None
    ensures current.IntV? && (Spells(value, "true") || Spells(value, "yes") || Spells(value, "on")) ==>
              Cast(current, value, e) == Some(IntV(1))
    ensures current.IntV? && (Spells(value, "false") || Spells(value, "no") || Spells(value, "off")) ==>
              Cast(current, value, e) == Some(IntV(0))
    ensures current.IntV? && !Spells(value, "true") && !Spells(value, "yes") && !Spells(value, "on")
            && !Spells(value, "false") && !Spells(value, "no") && !Spells(value, "off") ==>
              Cast(current, value, e) == if e.parseInt(value).Some? then Some(IntV(e.parseInt(value).value)) else None
  {
    hide Spells;
    SpellsIsLower(value, "true");
    SpellsIsLower(value, "yes");
    SpellsIsLower(value, "on");
    SpellsIsLower(value, "false");
    SpellsIsLower(value, "no");
    SpellsIsLower(value, "off");
  }

  lemma SpellsIsLower(value: string, w: string)
    requires forall i :: 0 <= i < |w| ==> 'a' <= w[i] <= 'z'
    ensures Spells(value, w) <==> Lower(value) == w
  {
    LowerAt(value);
  }

  /** The last line that assigns the key a value readable as its kind. */
  ghost predicate LastReadable(lines: seq<string>, key: string, kind: Value, e: Env, i: nat) {
    && i < |lines| && Sets(lines[i], key) && Cast(kind, ValueOf(lines[i]), e).Some?
    && forall j :: i < j < |lines| && Sets(lines[j], key) ==> Cast(kind, ValueOf(lines[j]), e).None?
  }

  /** An ordinary setting: no credential, not the API key. */
  predicate Ordinary(key: string) {
    !StartsWith(key, USER_PREFIX) && key != API_KEY && key != "" && key[0] != '#'
  }

  lemma StepSetting(a: Scan, line: string, i: nat, e: Env, key: string, kind: Value)
    requires key in a.config && Ordinary(key) && SameKind(a.config[key], kind)
    ensures var config := Step(a, line, i, e).config;
            && key in config && SameKind(config[key], kind)
            && config[key] == if Sets(line, key) && Cast(kind, ValueOf(line), e).Some?
                              then Cast(kind, ValueOf(line), e).value
                              else a.config[key]
  {
    hide Classify, FieldName, Cast, IsHash, Strip;
    ClassifyByField(line, a.config);
    match Classify(line, a.config) {
      case Other =>
      case Credential(_, _) =>
      case ApiKey(_) =>
      case Setting(k, value) =>
        CastByKind(a.config[key], kind, value, e);
    }
  }

  lemma {:induction false} ScanSetting(a: Scan, lines: seq<string>, i: nat, e: Env, key: string, kind: Value)
    requires key in a.config && Ordinary(key) && SameKind(a.config[key], kind)
    ensures var config := ScanLines(a, lines, i, e).config;
            && key in config
            && (forall k: nat :: LastReadable(lines, key, kind, e, k) ==>
                  config[key] == Cast(kind, ValueOf(lines[k]), e).value)
            && ((forall k :: 0 <= k < |lines| && Sets(lines[k], key) ==> Cast(kind, ValueOf(lines[k]), e).None?) ==>
                  config[key] == a.config[key])
    decreases |lines|
  {
    hide Step, FieldName, Cast, Strip;
    if lines != [] {
      var rest, b := lines[1..], Step(a, lines[0], i, e);
      StepSetting(a, lines[0], i, e, key, kind);
      ScanSetting(b, rest, i + 1, e, key, kind);
      assert forall j :: 0 <= j < |rest| ==> rest[j] == lines[j + 1];
      forall k: nat | LastReadable(lines, key, kind, e, k)
        ensures ScanLines(a, lines, i, e).config[key] == Cast(kind, ValueOf(lines[k]), e).value
      {
        if k > 0 {
          assert LastReadable(rest, key, kind, e, k - 1);
        }
      }
    }
  }

  /** Every ordinary setting has the value of the last line that assigns it a readable one, or its default. */
  lemma SettingExactly(defaults: Config, lines: seq<string>, e: Env, key: string)
    requires key in defaults && Ordinary(key) && !IsVapidKey(key)
    ensures var config, kind := Parse(defaults, lines, e).config, defaults[key];
            && key in config
            && (forall k: nat :: LastReadable(lines, key, kind, e, k) ==>
                  config[key] == Cast(kind, ValueOf(lines[k]), e).value)
            && ((forall k :: 0 <= k < |lines| && Sets(lines[k], key) ==> Cast(kind, ValueOf(lines[k]), e).None?) ==>
                  config[key] == kind)
  {
    hide ScanLines, Cast, FieldName, Upsert, Strip, LastReadable;
    ScanSetting(Start(defaults), lines, 0, e, key, defaults[key]);
  }

  // ------------------------------------------------------------- the API key and the VAPID pair

  ghost predicate FirstKey(lines: seq<string>, i: nat) {
    && i < |lines| && Sets(lines[i], "API_KEY") && ValueOf(lines[i]) != ""
    && forall j :: 0 <= j < i && Sets(lines[j], "API_KEY") ==> ValueOf(lines[j]) == ""
  }

  lemma StepApiKey(a: Scan, line: string, i: nat, e: Env)
    requires API_KEY in a.config
    ensures var config := Step(a, line, i, e).config;
            && API_KEY in config
            && config[API_KEY]
               == if Sets(line, API_KEY) && !HasKey(a.config) then StrV(ValueOf(line)) else a.config[API_KEY]
  {
    hide Classify, FieldName, Cast, IsHash, Strip;
    ClassifyByField(line, a.config);
    PlainNames();
  }

  lemma {:induction false} ScanApiKey(a: Scan, lines: seq<string>, i: nat, e: Env)
    requires API_KEY in a.config && a.config[API_KEY] == StrV("")
    ensures var config := ScanLines(a, lines, i, e).config;
            && API_KEY in config
            && (forall k: nat :: FirstKey(lines, k) ==> config[API_KEY] == StrV(ValueOf(lines[k])))
            && ((forall k :: 0 <= k < |lines| && Sets(lines[k], API_KEY) ==> ValueOf(lines[k]) == "") ==>
                  config[API_KEY] == StrV(""))
    decreases |lines|
  {
    hide Step, FieldName, Strip;
    if lines != [] {
      var rest, b := lines[1..], Step(a, lines[0], i, e);
      StepApiKey(a, lines[0], i, e);
      assert forall j :: 0 <= j < |rest| ==> rest[j] == lines[j + 1];
      if HasKey(b.config) {
        ScanKeepsKeys(b, rest, i + 1, e);
        assert forall k: nat :: FirstKey(lines, k) ==> k == 0;
      } else {
        ScanApiKey(b, rest, i + 1, e);
        forall k: nat | FirstKey(lines, k)
          ensures ScanLines(a, lines, i, e).config[API_KEY] == StrV(ValueOf(lines[k]))
        {
          assert FirstKey(rest, k - 1);
        }
      }
    }
  }

  /** The API key is the first one that is not empty; if there is none it is generated, where keys are
      enabled, and empty otherwise. */
  lemma ApiKeyExactly(defaults: Config, lines: seq<string>, e: Env)
    requires Defaults(defaults)
    ensures var config := Parse(defaults, lines, e).config;
            && "API_KEY" in config && "API_KEY_ENABLED" in config
            && (forall k: nat :: FirstKey(lines, k) ==> config["API_KEY"] == StrV(ValueOf(lines[k])))
            && ((forall k :: 0 <= k < |lines| && Sets(lines[k], "API_KEY") ==> ValueOf(lines[k]) == "") ==>
                  config["API_KEY"] == if config["API_KEY_ENABLED"] != IntV(0) then StrV(e.genKey) else StrV(""))
  {
    hide ScanLines, FieldName, Upsert, Strip;
    ScanApiKey(Start(defaults), lines, 0, e);
    ScanKeepsKeys(Start(defaults), lines, 0, e);
  }

  /** The VAPID keys are those assigned last; if the private one is then empty and push is available, both
      are generated. */
  lemma VapidExactly(defaults: Config, lines: seq<string>, e: Env)
    requires Defaults(defaults)
    ensures var config := Parse(defaults, lines, e).config;
            var priv := LastAssigned(Trail(lines, "VAPID_PRIVATE_KEY")).GetOr("");
            var pub := LastAssigned(Trail(lines, "VAPID_PUBLIC_KEY")).GetOr("");
            && "VAPID_PRIVATE_KEY" in config && "VAPID_PUBLIC_KEY" in config
            && (if priv == "" && e.vapid.Some?
                then config["VAPID_PRIVATE_KEY"] == StrV(e.vapid.value.0)
                     && config["VAPID_PUBLIC_KEY"] == StrV(e.vapid.value.1)
                else config["VAPID_PRIVATE_KEY"] == StrV(priv) && config["VAPID_PUBLIC_KEY"] == StrV(pub))
  {
    hide ScanLines, FieldName, Upsert, Strip, Trail, LastAssigned;
    var a := Start(defaults);
    assert a.config == a.config[VAPID_PRIVATE := a.config[VAPID_PRIVATE]];
    assert a.config == a.config[VAPID_PUBLIC := a.config[VAPID_PUBLIC]];
    ApartScan(a, a, lines, 0, e, VAPID_PRIVATE);
    ApartScan(a, a, lines, 0, e, VAPID_PUBLIC);
  }

  ghost predicate FirstNaming(lines: seq<string>, key: string, i: nat) {
    i < |lines| && FieldName(lines[i]) == key && forall j :: 0 <= j < i ==> FieldName(lines[j]) != key
  }

  /** Filling in a key touches the first line that names it and no other, or appends it after the block. */
  lemma UpsertExactly(lines: seq<string>, key: string, value: string, block: seq<string>)
    ensures var out := Upsert(lines, key, value, block);
            && (forall i: nat :: FirstNaming(lines, key, i) ==>
                  |out| == |lines| && out[i] == key + "=" + value
                  && forall j :: 0 <= j < |lines| && j != i ==> out[j] == lines[j])
            && ((forall i :: 0 <= i < |lines| ==> FieldName(lines[i]) != key) ==>
                  out == lines + block + [key + "=" + value])
  {
    hide FieldName;
  }

  // ------------------------------------------------------------- the text on disk

  predicate Unbroken(lines: seq<string>) {
    forall i :: 0 <= i < |lines| ==> NoBreak(lines[i])
  }

  lemma StripNoBreak(s: string)
    requires NoBreak(s)
    ensures NoBreak(Strip(s))
  {
    LStripIsSuffix(s);
  }

  lemma StepKeepsNoBreak(a: Scan, line: string, i: nat, e: Env)
    requires Good(e) && NoBreak(line) && Unbroken(a.lines)
    ensures Unbroken(Step(a, line, i, e).lines)
  {
    hide Classify, IsHash, Cast, Assign, NoBreak;
    var item := Classify(line, a.config);
    if item.Credential? {
      CredentialField(line, a.config);
      FieldNoBreak(line);
      WrittenNoBreak(USER_PREFIX + item.user, e.hash(i, item.value));
    }
  }

  lemma FieldNoBreak(line: string)
    requires NoBreak(line)
    ensures NoBreak(FieldName(line))
  {
    StripNoBreak(line[..Find(line, '=')]);
  }

  lemma WrittenNoBreak(key: string, value: string)
    requires NoBreak(key) && NoBreak(value)
    ensures NoBreak(Written(key, value))
  {
  }

  lemma {:induction false} ScanKeepsNoBreak(a: Scan, lines: seq<string>, i: nat, e: Env)
    requires Good(e) && Unbroken(lines) && Unbroken(a.lines)
    ensures Unbroken(ScanLines(a, lines, i, e).lines)
    decreases |lines|
  {
    hide Step, NoBreak;
    if lines != [] {
      StepKeepsNoBreak(a, lines[0], i, e);
      ScanKeepsNoBreak(Step(a, lines[0], i, e), lines[1..], i + 1, e);
    }
  }

  lemma UpsertKeepsNoBreak(lines: seq<string>, key: string, v: string, block: seq<string>)
    requires Unbroken(lines) && NoBreak(key) && NoBreak(v) && Comments(block)
    ensures Unbroken(Upsert(lines, key, v, block))
  {
    hide NoBreak, FieldName, Written;
    WrittenNoBreak(key, v);
  }

  lemma NamesNoBreak()
    ensures NoBreak(API_KEY) && NoBreak(VAPID_PUBLIC) && NoBreak(VAPID_PRIVATE)
  {
  }

  /** Nothing is dropped unless an earlier line is kept. */
  lemma {:induction false} RewriteKeepsALine(a: Scan, lines: seq<string>, i: nat, e: Env)
    requires API_KEY in a.config && (HasKey(a.config) || a.rewrite ==> a.lines != [])
    ensures var r := ScanLines(a, lines, i, e); r.rewrite ==> r.lines != []
    decreases |lines|
  {
    hide Classify, IsHash, Cast;
    if lines != [] {
      StepKeepsKeys(a, lines[0], i, e);
      RewriteKeepsALine(Step(a, lines[0], i, e), lines[1..], i + 1, e);
    }
  }

  /** The text of the file after a start. */
  function TextOnDisk(defaults: Config, text: string, e: Env): string {
    var p := Parse(defaults, SplitLines(text), e);
    if p.rewrite then Render(p.lines) else text
  }

  /** The rewritten text splits into exactly the lines that were meant: the line-level results above are
      results about the file. */
  lemma TextSurvives(defaults: Config, text: string, e: Env)
    requires Defaults(defaults) && Good(e)
    ensures SplitLines(TextOnDisk(defaults, text, e)) == OnDisk(defaults, SplitLines(text), e)
  {
    hide ScanLines, NoBreak, SplitLines, Comments;
    var lines := SplitLines(text);
    var r := ScanLines(Start(defaults), lines, 0, e);
    ScanKeepsNoBreak(Start(defaults), lines, 0, e);
    RewriteKeepsALine(Start(defaults), lines, 0, e);
    NamesNoBreak();
    var k := ProvisionKey(r, e);
    if NeedsKey(r.config) {
      UpsertKeepsNoBreak(r.lines, API_KEY, e.genKey, e.keyBlock);
    }
    if NeedsVapid(k.config, e) {
      var (priv, pub) := e.vapid.value;
      var some := FindField(k.lines, VAPID_PUBLIC) < |k.lines| || FindField(k.lines, VAPID_PRIVATE) < |k.lines|;
      var block := if some then [] else e.vapidBlock;
      assert Comments([]) by { NoComments(); }
      UpsertKeepsNoBreak(k.lines, VAPID_PUBLIC, pub, block);
      UpsertKeepsNoBreak(Upsert(k.lines, VAPID_PUBLIC, pub, block), VAPID_PRIVATE, priv, []);
    }
    SplitOfJoin(Parse(defaults, lines, e).lines);
  }

  lemma NoComments()
    ensures Comments([])
  {
  }
}
