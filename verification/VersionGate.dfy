/** Version ordering and the incompatible-version gate of the web updater (genpi/updater.py). */
module VersionGate {
  import opened Prelude
  import opened PyString

  type Version = seq<int>

  // `int(part)`, or None when it raises ValueError.
  type IntParser = string -> Option<int>

  function Numbers(parts: seq<string>, parse: IntParser): Version {
    if parts == [] then []
    else [if parse(parts[0]).Some? then parse(parts[0]).value else 0] + Numbers(parts[1..], parse)
  }

  function VersionTuple(v: string, parse: IntParser): Version {
    Numbers(SplitOn(v, '.'), parse)
  }

  /** Tuple comparison: lexicographic, a proper prefix being smaller. */
  predicate Less(a: Version, b: Version) {
    if b == [] then false
    else if a == [] then true
    else a[0] < b[0] || (a[0] == b[0] && Less(a[1..], b[1..]))
  }

  /** The order is total ... */
  lemma {:induction false} LessIsTotal(a: Version, b: Version)
    ensures Less(a, b) || a == b || Less(b, a)
    ensures !(Less(a, b) && Less(b, a)) && !Less(a, a)
  {
    if a != [] && b != [] {
      LessIsTotal(a[1..], b[1..]);
    }
    if a != [] {
      LessIsTotal(a[1..], a[1..]);
    }
    if a != [] && b != [] && a[0] == b[0] && a[1..] == b[1..] {
      assert a == [a[0]] + a[1..] == b;
    }
  }

  /** ... and transitive. */
  lemma {:induction false} LessIsTransitive(a: Version, b: Version, c: Version)
    requires Less(a, b) && Less(b, c)
    ensures Less(a, c)
  {
    if a != [] && a[0] == b[0] == c[0] {
      LessIsTransitive(a[1..], b[1..], c[1..]);
    }
  }

  /** Trimmed, and tolerant of a leading v. */
  function GateVersion(g: string): string {
    var t := Strip(g);
    if t != "" && (t[0] == 'v' || t[0] == 'V') then t[1..] else t
  }

  /** The shapes the manifest field may take; anything else counts as absent. */
  datatype Incompatible =
    | Absent
    | Single(version: string)
    | Listed(versions: seq<string>)
    | Reasons(notes: map<string, string>)

  function Gates(i: Incompatible): set<string> {
    match i
    case Absent => {}
    case Single(v) => {v}
    case Listed(vs) => set v | v in vs
    case Reasons(notes) => notes.Keys
  }

  predicate InRange(g: string, installed: string, latest: string, parse: IntParser) {
    var t := VersionTuple(GateVersion(g), parse);
    GateVersion(g) != "" && Less(VersionTuple(installed, parse), t) && !Less(VersionTuple(latest, parse), t)
  }

  function Blocking(i: Incompatible, installed: string, latest: string, parse: IntParser): set<string> {
    set g | g in Gates(i) && InRange(g, installed, latest, parse) :: GateVersion(g)
  }

  /** The web updater applies `latest` over `installed` only if no gate lies between. */
  predicate Accepts(i: Incompatible, installed: string, latest: string, parse: IntParser) {
    Blocking(i, installed, latest, parse) == {}
  }

  lemma BlockingIsRange(i: Incompatible, installed: string, latest: string, parse: IntParser)
    ensures Accepts(i, installed, latest, parse) <==>
              forall g :: g in Gates(i) ==> !InRange(g, installed, latest, parse)
  {
    forall g | g in Gates(i) && InRange(g, installed, latest, parse)
      ensures Blocking(i, installed, latest, parse) != {}
    {
      assert GateVersion(g) in Blocking(i, installed, latest, parse);
    }
  }

  // ------------------------------------------------------------- in terms of the dotted numbers

  /** Parts joined by dots; every text is such a joining, of exactly one list of dot-free parts. */
  function Dotted(parts: seq<string>): string {
    if parts == [] then ""
    else if |parts| == 1 then parts[0]
    else parts[0] + "." + Dotted(parts[1..])
  }

  predicate DotFree(parts: seq<string>) {
    parts != [] && forall i :: 0 <= i < |parts| ==> '.' !in parts[i]
  }

  lemma {:induction false} PartsOfDotted(parts: seq<string>)
    requires DotFree(parts)
    ensures SplitOn(Dotted(parts), '.') == parts
  {
    if |parts| == 1 {
      SplitOnAt(parts[0], '.', "");
    } else {
      PartsOfDotted(parts[1..]);
      SplitOnAt(parts[0], '.', Dotted(parts[1..]));
    }
  }

  lemma {:induction false} EveryTextIsDotted(v: string)
    ensures DotFree(SplitOn(v, '.')) && Dotted(SplitOn(v, '.')) == v
    decreases |v|
  {
    var i := Find(v, '.');
    if i == |v| {
      SplitOnAt(v, '.', "");
    } else {
      var a, b := v[..i], v[i + 1..];
      assert v == a + ['.'] + b;
      assert '.' !in a;
      SplitOnAt(a, '.', b);
      EveryTextIsDotted(b);
      assert ([a] + SplitOn(b, '.'))[1..] == SplitOn(b, '.');
    }
  }

  lemma {:induction false} NumbersAt(parts: seq<string>, parse: IntParser)
    ensures |Numbers(parts, parse)| == |parts|
    ensures forall i :: 0 <= i < |parts| ==> Numbers(parts, parse)[i] == parse(parts[i]).GetOr(0)
  {
    if parts != [] { NumbersAt(parts[1..], parse); }
  }

  /** Component i of a version is the number in its i-th dotted part, 0 where that is no number. */
  lemma TupleOfDotted(parts: seq<string>, parse: IntParser)
    requires DotFree(parts)
    ensures VersionTuple(Dotted(parts), parse) == seq(|parts|, i requires 0 <= i < |parts| => parse(parts[i]).GetOr(0))
  {
    PartsOfDotted(parts);
    NumbersAt(parts, parse);
  }

  /** After their longest common beginning, a ends first or has the smaller number. */
  ghost predicate Smaller(a: Version, b: Version) {
    exists k: nat :: k <= |a| && k < |b| && a[..k] == b[..k] && (k == |a| || a[k] < b[k])
  }

  lemma {:induction false} LessExactly(a: Version, b: Version)
    ensures Less(a, b) <==> Smaller(a, b)
  {
    if a != [] && b != [] {
      LessExactly(a[1..], b[1..]);
      if Smaller(a[1..], b[1..]) && a[0] == b[0] {
        var k: nat :| k <= |a[1..]| && k < |b[1..]| && a[1..][..k] == b[1..][..k]
                      && (k == |a[1..]| || a[1..][k] < b[1..][k]);
        assert a[..k + 1] == [a[0]] + a[1..][..k] && b[..k + 1] == [b[0]] + b[1..][..k];
        assert Smaller(a, b);
      }
      if a[0] < b[0] {
        assert a[..0] == b[..0];
        assert Smaller(a, b);
      }
      if k: nat :| k <= |a| && k < |b| && a[..k] == b[..k] && (k == |a| || a[k] < b[k]) {
        SmallerRest(a, b, k);
      }
    } else if b != [] {
      assert a[..0] == b[..0];
      assert Smaller(a, b);
    }
  }

  lemma SmallerRest(a: Version, b: Version, k: nat)
    requires a != [] && b != [] && k <= |a| && k < |b| && a[..k] == b[..k] && (k == |a| || a[k] < b[k])
    ensures a[0] < b[0] || (a[0] == b[0] && Smaller(a[1..], b[1..]))
  {
    if k > 0 {
      assert a[0] == a[..k][0] == b[..k][0] == b[0];
      assert a[1..][..k - 1] == a[..k][1..] && b[1..][..k - 1] == b[..k][1..];
    }
  }

  /** The manifest declares g a gate, in one of the shapes the field may take. */
  predicate Declared(i: Incompatible, g: string) {
    (i.Single? && g == i.version) || (i.Listed? && g in i.versions) || (i.Reasons? && g in i.notes)
  }

  ghost function Numbered(v: string, parse: IntParser): Version {
    var parts := SplitOn(v, '.');
    seq(|parts|, i requires 0 <= i < |parts| => parse(parts[i]).GetOr(0))
  }

  /** An update is accepted if and only if no declared gate, read as dotted numbers, is larger than the
      installed version without being larger than the offered one. */
  lemma AcceptsExactly(i: Incompatible, installed: string, latest: string, parse: IntParser)
    ensures Accepts(i, installed, latest, parse) <==>
              forall g :: Declared(i, g) && GateVersion(g) != "" ==>
                var n := Numbered(GateVersion(g), parse);
                !(Smaller(Numbered(installed, parse), n) && !Smaller(Numbered(latest, parse), n))
  {
    hide Less, GateVersion, Smaller, Accepts, VersionTuple, Numbered;
    BlockingIsRange(i, installed, latest, parse);
    TupleIsNumbered(installed, parse);
    TupleIsNumbered(latest, parse);
    forall g
      ensures g in Gates(i) <==> Declared(i, g)
      ensures InRange(g, installed, latest, parse) <==>
                GateVersion(g) != "" && Smaller(Numbered(installed, parse), Numbered(GateVersion(g), parse))
                && !Smaller(Numbered(latest, parse), Numbered(GateVersion(g), parse))
    {
      TupleIsNumbered(GateVersion(g), parse);
      LessExactly(Numbered(installed, parse), Numbered(GateVersion(g), parse));
      LessExactly(Numbered(latest, parse), Numbered(GateVersion(g), parse));
    }
  }

  lemma TupleIsNumbered(v: string, parse: IntParser)
    ensures VersionTuple(v, parse) == Numbered(v, parse)
  {
    EveryTextIsDotted(v);
    TupleOfDotted(SplitOn(v, '.'), parse);
  }

  /** A gate may be written with white space around it and a v before it. */
  lemma GateSpelling(a: string, g: string, b: string)
    requires AllSpace(a) && AllSpace(b) && Trimmed(g) && g != "" && g[0] != 'v' && g[0] != 'V'
    ensures GateVersion(a + g + b) == g
    ensures GateVersion(a + ("v" + g) + b) == g && GateVersion(a + ("V" + g) + b) == g
  {
    hide IsSpace, Strip, GateVersion, AllSpace;
    StripDrops(a, g, b);
    assert GateVersion(a + g + b) == g by { GateOf(a + g + b, g); }
    assert ("v" + g)[|"v" + g| - 1] == g[|g| - 1] && ("V" + g)[|"V" + g| - 1] == g[|g| - 1];
    LettersAreNoSpace();
    StripDrops(a, "v" + g, b);
    StripDrops(a, "V" + g, b);
    assert ("v" + g)[1..] == g && ("V" + g)[1..] == g;
    GateOf(a + ("v" + g) + b, "v" + g);
    GateOf(a + ("V" + g) + b, "V" + g);
  }

  lemma GateOf(text: string, t: string)
    requires Strip(text) == t && t != ""
    ensures GateVersion(text) == if t[0] == 'v' || t[0] == 'V' then t[1..] else t
  {
  }

  lemma LettersAreNoSpace()
    ensures !IsSpace('v') && !IsSpace('V') && !IsSpace('1') && !IsSpace('5')
  {
  }

  lemma GateVersions()
    ensures GateVersion("1.5") == "1.5" && GateVersion("v1.5") == "1.5"
  {
    hide GateVersion;
    LettersAreNoSpace();
    GateSpelling("", "1.5", "");
    assert "" + "1.5" + "" == "1.5" && "" + ("v" + "1.5") + "" == "v1.5";
  }

  lemma TwoParts(a: string, b: string, parse: IntParser)
    requires '.' !in a && '.' !in b
    ensures VersionTuple(a + "." + b, parse) == [parse(a).GetOr(0), parse(b).GetOr(0)]
  {
    hide VersionTuple;
    TupleOfDotted([a, b], parse);
    assert [a, b][1..] == [b];
    assert Dotted([a, b]) == a + "." + b;
    assert [parse(a).GetOr(0), parse(b).GetOr(0)] == seq(2, i requires 0 <= i < 2 => parse([a, b][i]).GetOr(0));
  }

  lemma SmallTuples(parse: IntParser)
    requires parse("0") == Some(0) && parse("1") == Some(1) && parse("2") == Some(2) && parse("5") == Some(5)
    ensures VersionTuple("1.0", parse) == [1, 0] && VersionTuple("1.5", parse) == [1, 5]
    ensures VersionTuple("2.0", parse) == [2, 0]
  {
    hide VersionTuple;
    TwoParts("1", "0", parse);
    TwoParts("1", "5", parse);
    TwoParts("2", "0", parse);
    assert "1" + "." + "0" == "1.0" && "1" + "." + "5" == "1.5" && "2" + "." + "0" == "2.0";
  }

  lemma SmallOrder()
    ensures Less([1, 0], [1, 5]) && !Less([2, 0], [1, 5]) && !Less([1, 5], [1, 5])
  {
    var a, b, c: Version := [1, 0], [1, 5], [2, 0];
    assert a[1..] == [0] && b[1..] == [5];
  }

  lemma SingleAccepts(i: Incompatible, g: string, installed: string, latest: string, parse: IntParser)
    requires Gates(i) == {g}
    ensures Accepts(i, installed, latest, parse) <==> !InRange(g, installed, latest, parse)
  {
    hide InRange;
    BlockingIsRange(i, installed, latest, parse);
  }

  lemma InSmallRange(g: string, installed: string, latest: string, parse: IntParser)
    requires GateVersion(g) == "1.5" && VersionTuple("1.5", parse) == [1, 5]
    ensures InRange(g, installed, latest, parse) <==>
              Less(VersionTuple(installed, parse), [1, 5]) && !Less(VersionTuple(latest, parse), [1, 5])
  {
  }

  /** A gate at 1.5, in any shape and spelling, keeps 1.0 from going to 1.5 and to 2.0, and lets 1.5 go on. */
  lemma GateBlocks(i: Incompatible, g: string, parse: IntParser)
    requires parse("0") == Some(0) && parse("1") == Some(1) && parse("2") == Some(2) && parse("5") == Some(5)
    requires g == "1.5" || g == "v1.5"
    requires i == Single(g) || i == Listed([g]) || (i.Reasons? && i.notes.Keys == {g})
    ensures !Accepts(i, "1.0", "2.0", parse) && !Accepts(i, "1.0", "1.5", parse) && Accepts(i, "1.5", "2.0", parse)
  {
    hide VersionTuple, GateVersion, InRange, Accepts, Less;
    GateVersions();
    SmallTuples(parse);
    SmallOrder();
    assert Gates(i) == {g};
    SingleAccepts(i, g, "1.0", "2.0", parse);
    SingleAccepts(i, g, "1.0", "1.5", parse);
    SingleAccepts(i, g, "1.5", "2.0", parse);
    InSmallRange(g, "1.0", "2.0", parse);
    InSmallRange(g, "1.0", "1.5", parse);
    InSmallRange(g, "1.5", "2.0", parse);
  }

  // ------------------------------------------------------------- runs of updates

  /** Update k goes from vs[k] to vs[k + 1] and is accepted under manifest k; gates are only added. */
  ghost predicate AcceptedRun(vs: seq<string>, manifests: seq<Incompatible>, parse: IntParser) {
    && |vs| == |manifests| + 1
    && (forall k :: 0 <= k < |manifests| ==> Accepts(manifests[k], vs[k], vs[k + 1], parse))
    && (forall k :: 0 <= k < |manifests| - 1 ==> Gates(manifests[k]) <= Gates(manifests[k + 1]))
  }

  lemma {:induction false} GateStays(manifests: seq<Incompatible>, g: string, k: nat)
    requires k < |manifests| && g in Gates(manifests[0])
    requires forall j :: 0 <= j < |manifests| - 1 ==> Gates(manifests[j]) <= Gates(manifests[j + 1])
    ensures g in Gates(manifests[k])
  {
    if k > 0 {
      GateStays(manifests, g, k - 1);
    }
  }

  /** Along any run of accepted updates, even one that steps down on the way, no gate known at the
      start is ever crossed: none lies in (first version, last version]. */
  lemma {:induction false} NoGateIsCrossed(vs: seq<string>, manifests: seq<Incompatible>, parse: IntParser, g: string,
                                           k: nat)
    requires AcceptedRun(vs, manifests, parse) && |manifests| >= 1 && g in Gates(manifests[0])
    requires k < |vs|
    ensures !InRange(g, vs[0], vs[k], parse)
  {
    var t := VersionTuple(GateVersion(g), parse);
    if k == 0 {
      LessIsTotal(VersionTuple(vs[0], parse), t);
    } else {
      NoGateIsCrossed(vs, manifests, parse, g, k - 1);
      GateStays(manifests, g, k - 1);
      assert Accepts(manifests[k - 1], vs[k - 1], vs[k - 1 + 1], parse);
      BlockingIsRange(manifests[k - 1], vs[k - 1], vs[k], parse);
      assert !InRange(g, vs[k - 1], vs[k], parse);
    }
  }

  /** An update offered by the version check (`latest` above `installed`) that the gate accepts leaves
      every known gate where it was: on the same side of both versions. */
  lemma AcceptedUpdateKeepsSides(i: Incompatible, installed: string, latest: string, parse: IntParser, g: string)
    requires Accepts(i, installed, latest, parse) && g in Gates(i) && GateVersion(g) != ""
    requires Less(VersionTuple(installed, parse), VersionTuple(latest, parse))
    ensures var t := VersionTuple(GateVersion(g), parse);
            Less(VersionTuple(installed, parse), t) <==> Less(VersionTuple(latest, parse), t)
  {
    var t := VersionTuple(GateVersion(g), parse);
    BlockingIsRange(i, installed, latest, parse);
    if Less(VersionTuple(latest, parse), t) {
      LessIsTransitive(VersionTuple(installed, parse), VersionTuple(latest, parse), t);
    }
    assert !InRange(g, installed, latest, parse);
  }
}
