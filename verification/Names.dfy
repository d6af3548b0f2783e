/**
 Names of frames, objects and meshes: stripping configured prefixes, cutting at slashes,
 and the naming scheme that ties a mesh id to its frame.
 */
module Names {

  // ---- prefixes ----

  /** The first applicable non-empty prefix, and only that one, is removed. */
  function StripPrefixes(frame: string, prefixes: seq<string>): string {
    if prefixes == [] then frame
    else if prefixes[0] != "" && prefixes[0] <= frame then frame[|prefixes[0]|..]
    else StripPrefixes(frame, prefixes[1..])
  }

  ghost predicate Applies(prefix: string, frame: string) {
    prefix != "" && prefix <= frame
  }

  /** `StripTfPrefixes`: the scan stops at the first match. */
  method StripTfPrefixes(frame: string, prefixes: seq<string>) returns (stripped: string)
    ensures stripped == StripPrefixes(frame, prefixes)
  {
    stripped := frame;
    for i := 0 to |prefixes|
      invariant stripped == frame
      invariant StripPrefixes(frame, prefixes) == StripPrefixes(frame, prefixes[i..])
    {
      if prefixes[i] != "" && prefixes[i] <= stripped {
        return stripped[|prefixes[i]|..];
      }
      assert prefixes[i..][1..] == prefixes[i + 1..];
    }
  }

  /** The first applicable prefix is cut off, once. */
  lemma {:induction false} StripFirstApplicable(frame: string, prefixes: seq<string>, i: nat)
    requires i < |prefixes| && Applies(prefixes[i], frame)
    requires forall j :: 0 <= j < i ==> !Applies(prefixes[j], frame)
    ensures prefixes[i] + StripPrefixes(frame, prefixes) == frame
  {
    if i > 0 {
      assert !Applies(prefixes[0], frame);
      forall j | 0 <= j < i - 1
        ensures !Applies(prefixes[1..][j], frame)
      {
        assert prefixes[1..][j] == prefixes[j + 1];
      }
      StripFirstApplicable(frame, prefixes[1..], i - 1);
    }
  }

  lemma {:induction false} StripNoneApplicable(frame: string, prefixes: seq<string>)
    requires forall j :: 0 <= j < |prefixes| ==> !Applies(prefixes[j], frame)
    ensures StripPrefixes(frame, prefixes) == frame
  {
    if prefixes != [] {
      assert !Applies(prefixes[0], frame);
      forall j | 0 <= j < |prefixes| - 1
        ensures !Applies(prefixes[1..][j], frame)
      {
        assert prefixes[1..][j] == prefixes[j + 1];
      }
      StripNoneApplicable(frame, prefixes[1..]);
    }
  }

  // ---- slashes ----

  function BeforeFirstSlash(s: string): (r: string)
    ensures '/' !in r && r <= s
    ensures '/' in s ==> |r| < |s| && s[|r|] == '/'
    ensures '/' !in s ==> r == s
  {
    if s == "" || s[0] == '/' then "" else [s[0]] + BeforeFirstSlash(s[1..])
  }

  function AfterLastSlash(s: string): (r: string)
    ensures '/' !in r
  {
    if '/' in s then AfterLastSlash(s[1..]) else s
  }

  function BeforeLastSlash(s: string): string {
    if s == "" then ""
    else if s[|s| - 1] == '/' then s[..|s| - 1]
    else BeforeLastSlash(s[..|s| - 1])
  }

  /** x is the part of the name before its first slash. */
  predicate IsFirstSegment(x: string, name: string) {
    '/' !in x && x <= name && (|x| == |name| || name[|x|] == '/')
  }

  lemma FirstSegmentIs(x: string, name: string)
    ensures IsFirstSegment(x, name) <==> x == BeforeFirstSlash(name)
  {
    NoSlashWithin(BeforeFirstSlash(name), name);
    if IsFirstSegment(x, name) {
      NoSlashWithin(x, name);
    }
  }

  lemma NoSlashWithin(x: string, name: string)
    requires '/' !in x && x <= name
    ensures forall k :: 0 <= k < |x| ==> name[k] != '/'
  {
    assert forall k :: 0 <= k < |x| ==> name[k] == x[k];
  }

  /** x is the part of the name behind its last slash, or all of a name without one. */
  predicate IsLastSegment(x: string, name: string) {
    && '/' !in x && |x| <= |name| && name[|name| - |x|..] == x
    && (|x| == |name| || name[|name| - |x| - 1] == '/')
  }

  lemma {:induction false} AfterLastSlashIsLast(name: string)
    ensures IsLastSegment(AfterLastSlash(name), name)
  {
    if '/' in name {
      AfterLastSlashIsLast(name[1..]);
    }
  }

  /** A name has one last segment. */
  lemma LastSegmentIs(x: string, name: string)
    ensures IsLastSegment(x, name) <==> x == AfterLastSlash(name)
  {
    var y := AfterLastSlash(name);
    AfterLastSlashIsLast(name);
    NoSlashBehind(y, name);
    if IsLastSegment(x, name) {
      NoSlashBehind(x, name);
    }
  }

  lemma NoSlashBehind(x: string, name: string)
    requires '/' !in x && |x| <= |name| && name[|name| - |x|..] == x
    ensures forall k :: |name| - |x| <= k < |name| ==> name[k] != '/'
  {
    assert forall k :: 0 <= k < |x| ==> name[|name| - |x| + k] == x[k];
    forall k | |name| - |x| <= k < |name|
      ensures name[k] != '/'
    {
      assert name[k] == x[k - (|name| - |x|)];
    }
  }

  lemma {:induction false} FirstSegment(a: string, b: string)
    requires '/' !in a
    ensures BeforeFirstSlash(a + "/" + b) == a
  {
    var s := a + "/" + b;
    if a != "" {
      FirstSegment(a[1..], b);
      assert s[1..] == a[1..] + "/" + b;
    }
  }

  lemma {:induction false} CutLastSegment(a: string, b: string)
    requires '/' !in b
    ensures BeforeLastSlash(a + "/" + b) == a
  {
    var s := a + "/" + b;
    if b == "" {
      assert s[..|s| - 1] == a;
    } else {
      CutLastSegment(a, b[..|b| - 1]);
      assert s[..|s| - 1] == a + "/" + b[..|b| - 1];
      assert s[|s| - 1] == b[|b| - 1];
    }
  }

  // ---- the naming scheme ----

  function FrameName(prefix: string, shortName: string, entity: string): string {
    prefix + shortName + "/" + entity
  }

  function MeshId(frame: string, inner: string): string {
    "/" + frame + "/" + inner
  }

  function Digit(d: nat): char
    requires d < 10
  {
    "0123456789"[d]
  }

  function Decimal(n: nat): (r: string)
    ensures '/' !in r
  {
    if n < 10 then [Digit(n)] else Decimal(n / 10) + [Digit(n % 10)]
  }

  /** The number a string of digits stands for. */
  function Value(digits: string): int {
    if digits == "" then 0
    else
      var k := |digits| - 1;
      10 * Value(digits[..k]) + (digits[k] as int - '0' as int)
  }

  /** The usual decimal numeral: digits only, no leading zero. */
  predicate IsNumeral(s: string, n: nat) {
    && s != "" && (forall k :: 0 <= k < |s| ==> '0' <= s[k] <= '9')
    && (|s| > 1 ==> s[0] != '0') && Value(s) == n
  }

  lemma {:induction false} DecimalIsNumeral(n: nat)
    ensures IsNumeral(Decimal(n), n)
  {
    var s := Decimal(n);
    DigitIs(n % 10);
    if n >= 10 {
      DecimalIsNumeral(n / 10);
      var t := Decimal(n / 10);
      assert s[..|s| - 1] == t && t[..0] == "";
      assert |t| == 1 ==> Value(t) == t[0] as int - '0' as int;
    } else {
      assert s[..0] == "";
    }
  }

  lemma DigitIs(d: nat)
    requires d < 10
    ensures '0' <= Digit(d) <= '9' && Digit(d) as int - '0' as int == d && (Digit(d) == '0' <==> d == 0)
  {
  }

  /** A primitive set with several members numbers them; a single one takes the mesh id itself. */
  function PrimitiveId(meshId: string, i: nat, count: nat): string {
    if count > 1 then meshId + "_prim_" + Decimal(i) else meshId
  }

  /** The frame a mesh id was built from. */
  function FrameOfId(id: string): string {
    var s := BeforeLastSlash(id);
    if s == "" then "" else s[1..]
  }

  lemma FrameOfMeshId(frame: string, inner: string)
    requires '/' !in inner
    ensures FrameOfId(MeshId(frame, inner)) == frame
  {
    CutLastSegment("/" + frame, inner);
    assert MeshId(frame, inner) == ("/" + frame) + "/" + inner;
  }

  lemma FrameOfPrimitiveId(frame: string, inner: string, i: nat, count: nat)
    requires '/' !in inner
    ensures FrameOfId(PrimitiveId(MeshId(frame, inner), i, count)) == frame
  {
    FrameOfMeshId(frame, inner);
    if count > 1 {
      var inner' := inner + "_prim_" + Decimal(i);
      FrameOfMeshId(frame, inner');
      assert PrimitiveId(MeshId(frame, inner), i, count) == MeshId(frame, inner');
    }
  }

  /** The part of a frame name between the prefix and the first slash after it. */
  function Namespace(prefix: string, frame: string): string
    requires prefix <= frame
  {
    BeforeFirstSlash(frame[|prefix|..])
  }

  /** What every tracked frame looks like: prefix, a namespace that is not excluded, a slash. */
  predicate WellNamed(prefix: string, excluded: seq<string>, frame: string) {
    prefix <= frame && '/' in frame[|prefix|..] && Namespace(prefix, frame) !in excluded
  }

  lemma FrameNameWellNamed(prefix: string, excluded: seq<string>, shortName: string, entity: string)
    requires '/' !in shortName && shortName !in excluded
    ensures WellNamed(prefix, excluded, FrameName(prefix, shortName, entity))
  {
    var f := FrameName(prefix, shortName, entity);
    assert f[|prefix|..] == shortName + "/" + entity;
    FirstSegment(shortName, entity);
    assert f[|prefix|..][|shortName|] == '/';
  }
}
