/** Bounded sets of required check names and the text column that stores them. */
module RequiredChecks {
  import opened Text

  const MAX_NAME: nat := 128
  const MAX_COUNT: nat := 100
  const COLUMN_LIMIT: nat := 16384
  const SEPARATOR: char := '\n'

  // ---- display names ----

  /** The Unicode control characters: general category Cc. */
  predicate IsControl(c: char) { c <= '\U{1F}' || '\U{7F}' <= c <= '\U{9F}' }

  /** What is left to show: printable ASCII, and everything from the no-break space on. */
  lemma ShownExactly(c: char)
    ensures !IsControl(c) <==> ' ' <= c <= '~' || '\U{A0}' <= c
  {
  }

  function Visible(s: string): string {
    if s == "" then "" else (if IsControl(s[0]) then "" else [s[0]]) + Visible(s[1..])
  }

  function Cut(s: string, n: nat): string { if |s| <= n then s else s[..n] }

  function Sanitize(value: string): Option<string> {
    var kept := Cut(Visible(value), MAX_NAME);
    if kept == "" then None else Some(kept)
  }

  predicate IsName(s: string) { 0 < |s| <= MAX_NAME && forall i :: 0 <= i < |s| ==> !IsControl(s[i]) }

  lemma {:induction false} VisibleAppend(s: string, c: char)
    ensures Visible(s + [c]) == Visible(s) + (if IsControl(c) then "" else [c])
    decreases |s|
  {
    if s == "" {
      assert (s + [c])[1..] == "";
    } else {
      VisibleAppend(s[1..], c);
      assert (s + [c])[1..] == s[1..] + [c];
    }
  }

  lemma {:induction false} VisibleOf(s: string)
    ensures forall i :: 0 <= i < |Visible(s)| ==> !IsControl(Visible(s)[i])
    ensures (forall i :: 0 <= i < |s| ==> !IsControl(s[i])) ==> Visible(s) == s
    decreases |s|
  {
    if s == "" {
    } else {
      VisibleOf(s[1..]);
      assert s == [s[0]] + s[1..];
    }
  }

  /** A sanitized name is a name, and names are exactly what sanitizing leaves alone. */
  lemma SanitizeMakesNames(s: string)
    ensures Sanitize(s).Some? ==> IsName(Sanitize(s).value)
    ensures Sanitize(s) == Some(s) <==> IsName(s)
  {
    VisibleOf(s);
  }

  lemma {:induction false} VisibleGrows(s: string, i: nat)
    requires i <= |s|
    ensures |Visible(s[..i])| <= |Visible(s)| && Visible(s)[..|Visible(s[..i])|] == Visible(s[..i])
    decreases |s| - i
  {
    if i < |s| {
      VisibleAppend(s[..i], s[i]);
      assert s[..i + 1] == s[..i] + [s[i]];
      VisibleGrows(s, i + 1);
    } else {
      assert s[..i] == s;
    }
  }

  /** The bounded scan: it stops at the character that would exceed the limit. */
  method SanitizeName(value: string) returns (name: Option<string>)
    ensures name == Sanitize(value)
  {
    var sanitized, i := "", 0;
    while i < |value|
      invariant 0 <= i <= |value| && sanitized == Visible(value[..i]) && |sanitized| <= MAX_NAME
    {
      VisibleAppend(value[..i], value[i]);
      assert value[..i + 1] == value[..i] + [value[i]];
      if !IsControl(value[i]) {
        if |sanitized| == MAX_NAME {
          VisibleGrows(value, i + 1);
          assert Visible(value)[..MAX_NAME] == sanitized;
          return Some(sanitized);
        }
        sanitized := sanitized + [value[i]];
      }
      i := i + 1;
    }
    assert value[..i] == value;
    return if sanitized == "" then None else Some(sanitized);
  }

  // ---- sorted sets ----

  predicate Sorted(names: seq<string>) { forall i, j :: 0 <= i < j < |names| ==> Before(names[i], names[j]) }

  predicate IsCheckSet(names: seq<string>) {
    Sorted(names) && |names| <= MAX_COUNT && forall i :: 0 <= i < |names| ==> IsName(names[i])
  }

  function Elements(names: seq<string>): set<string> { set i | 0 <= i < |names| :: names[i] }

  function Insert(names: seq<string>, x: string): seq<string> {
    if names == [] then [x]
    else if x == names[0] then names
    else if Before(x, names[0]) then [x] + names
    else [names[0]] + Insert(names[1..], x)
  }

  lemma {:induction false} InsertKeepsSorted(names: seq<string>, x: string)
    requires Sorted(names)
    ensures Sorted(Insert(names, x)) && Elements(Insert(names, x)) == Elements(names) + {x}
    ensures |names| <= |Insert(names, x)| <= |names| + 1 && (x in Elements(names) <==> |Insert(names, x)| == |names|)
    decreases |names|
  {
    if names == [] {
    } else if x == names[0] {
    } else if Before(x, names[0]) {
      FrontKeepsSorted(names, x);
      ElementsOfCons(x, names);
    } else {
      InsertKeepsSorted(names[1..], x);
      BeforeTotal(x, names[0]);
      InsertBehind(names, Insert(names[1..], x), x);
    }
  }

  lemma InsertBehind(names: seq<string>, rest: seq<string>, x: string)
    requires names != [] && Sorted(names) && Before(names[0], x) && x != names[0]
    requires Sorted(rest) && Elements(rest) == Elements(names[1..]) + {x}
    ensures Sorted([names[0]] + rest) && Elements([names[0]] + rest) == Elements(names) + {x}
    ensures x in Elements(names) <==> x in Elements(names[1..])
  {
    ElementsOfCons(names[0], rest);
    ElementsOfCons(names[0], names[1..]);
    assert names == [names[0]] + names[1..];
    forall i | 0 <= i < |rest|
      ensures Before(names[0], rest[i])
    {
      assert rest[i] in Elements(rest);
    }
  }

  lemma FrontKeepsSorted(names: seq<string>, x: string)
    requires Sorted(names) && names != [] && Before(x, names[0])
    ensures Sorted([x] + names) && x !in Elements(names)
  {
    forall i | 0 <= i < |names|
      ensures Before(x, names[i])
    {
      if i > 0 { BeforeTransitive(x, names[0], names[i]); }
    }
    BeforeIrreflexive(x);
  }

  lemma ElementsOfCons(x: string, names: seq<string>)
    ensures Elements([x] + names) == {x} + Elements(names)
  {
    var all := [x] + names;
    forall y
      ensures y in Elements(all) <==> y in {x} + Elements(names)
    {
      if y in Elements(names) {
        var i :| 0 <= i < |names| && names[i] == y;
        assert all[i + 1] == y;
      }
      if y == x { assert all[0] == y; }
    }
  }

  // ---- bounded sets ----

  function Collect(kept: seq<string>, names: seq<string>): seq<string>
    decreases |names|
  {
    if names == [] || |kept| == MAX_COUNT then kept else Collect(Insert(kept, names[0]), names[1..])
  }

  method NewChecks(names: seq<string>) returns (checks: seq<string>)
    ensures checks == Collect([], names)
  {
    checks := [];
    var i := 0;
    while i < |names|
      invariant 0 <= i <= |names| && Collect([], names) == Collect(checks, names[i..])
    {
      assert names[i..][1..] == names[i + 1..];
      if |checks| == MAX_COUNT { return; }
      checks := Insert(checks, names[i]);
      i := i + 1;
    }
  }

  /** What is kept are the names up to some point of the input: all of it, unless there are a hundred
      different ones before.  Repetitions crowd nothing out. */
  lemma {:induction false} CollectedAre(kept: seq<string>, names: seq<string>) returns (k: nat)
    requires Sorted(kept) && |kept| <= MAX_COUNT
    ensures k <= |names| && (k == |names| || |Collect(kept, names)| == MAX_COUNT)
    ensures Sorted(Collect(kept, names)) && |Collect(kept, names)| <= MAX_COUNT
    ensures Elements(Collect(kept, names)) == Elements(kept) + Elements(names[..k])
    decreases |names|
  {
    k := 0;
    if names == [] || |kept| == MAX_COUNT {
    } else {
      InsertKeepsSorted(kept, names[0]);
      var rest := CollectedAre(Insert(kept, names[0]), names[1..]);
      k := rest + 1;
      ElementsOfCons(names[0], names[1..][..rest]);
      assert names[..k] == [names[0]] + names[1..][..rest];
    }
  }

  lemma {:induction false} InsertLast(names: seq<string>, x: string)
    requires forall i :: 0 <= i < |names| ==> Before(names[i], x)
    ensures Insert(names, x) == names + [x]
    decreases |names|
  {
    if names == [] {
    } else {
      InsertLast(names[1..], x);
      BeforeIrreflexive(x);
      if Before(x, names[0]) { BeforeTransitive(x, names[0], x); }
      assert names == [names[0]] + names[1..];
    }
  }

  lemma {:induction false} CollectSorted(kept: seq<string>, names: seq<string>)
    requires Sorted(kept + names) && |kept + names| <= MAX_COUNT
    ensures Collect(kept, names) == kept + names
    decreases |names|
  {
    if names == [] {
      assert kept + names == kept;
    } else {
      forall i | 0 <= i < |kept|
        ensures Before(kept[i], names[0])
      {
        assert (kept + names)[i] == kept[i] && (kept + names)[|kept|] == names[0];
      }
      InsertLast(kept, names[0]);
      assert kept + [names[0]] + names[1..] == kept + names;
      CollectSorted(kept + [names[0]], names[1..]);
    }
  }

  // ---- the stored column ----

  function Encode(checks: seq<string>): string { Join(checks, SEPARATOR) }

  function SanitizeAll(pieces: seq<string>): seq<string> {
    if pieces == [] then []
    else (match Sanitize(pieces[0]) case None => [] case Some(name) => [name]) + SanitizeAll(pieces[1..])
  }

  function Decode(column: string): seq<string> {
    var names := SanitizeAll(Split(column, SEPARATOR));
    Collect([], if |names| <= MAX_COUNT then names else names[..MAX_COUNT])
  }

  lemma {:induction false} SanitizeAllNames(names: seq<string>)
    requires forall i :: 0 <= i < |names| ==> IsName(names[i])
    ensures SanitizeAll(names) == names
    decreases |names|
  {
    if names == [] {
    } else {
      SanitizeMakesNames(names[0]);
      SanitizeAllNames(names[1..]);
    }
  }

  /** Storing a set and loading it gives the same set back, the empty one included. */
  lemma DecodeEncode(checks: seq<string>)
    requires IsCheckSet(checks)
    ensures Decode(Encode(checks)) == checks
  {
    if checks == [] {
      assert Split("", SEPARATOR) == [""];
      assert Sanitize("") == None;
      assert SanitizeAll([""]) == [] by { assert [""][1..] == []; }
    } else {
      forall i | 0 <= i < |checks|
        ensures SEPARATOR !in checks[i]
      {
        NameHasNoSeparator(checks[i]);
      }
      SplitJoin(checks, SEPARATOR);
      SanitizeAllNames(checks);
      assert [] + checks == checks;
      CollectSorted([], checks);
    }
  }

  lemma NameHasNoSeparator(s: string)
    requires IsName(s)
    ensures SEPARATOR !in s
  {
    assert IsControl(SEPARATOR);
  }

  lemma {:induction false} SanitizeAllMakesNames(pieces: seq<string>)
    ensures forall x :: x in SanitizeAll(pieces) ==> IsName(x)
    decreases |pieces|
  {
    if pieces == [] {
    } else {
      SanitizeMakesNames(pieces[0]);
      SanitizeAllMakesNames(pieces[1..]);
    }
  }

  /** Whatever text a row holds, reading it gives a bounded set of names. */
  lemma DecodeIsBounded(column: string)
    ensures IsCheckSet(Decode(column))
  {
    var all := SanitizeAll(Split(column, SEPARATOR));
    var names := if |all| <= MAX_COUNT then all else all[..MAX_COUNT];
    SanitizeAllMakesNames(Split(column, SEPARATOR));
    var k := CollectedAre([], names);
    var checks := Decode(column);
    forall i | 0 <= i < |checks|
      ensures IsName(checks[i])
    {
      assert checks[i] in Elements(checks);
      assert checks[i] in names;
    }
  }

  lemma {:induction false} EncodedLength(checks: seq<string>)
    requires forall i :: 0 <= i < |checks| ==> IsName(checks[i])
    ensures |Encode(checks)| <= (MAX_NAME + 1) * |checks|
    decreases |checks|
  {
    if |checks| <= 1 {
    } else {
      EncodedLength(checks[1..]);
    }
  }

  /** An encoded set always fits the column. */
  lemma EncodedFits(checks: seq<string>)
    requires IsCheckSet(checks)
    ensures |Encode(checks)| <= COLUMN_LIMIT
  {
    EncodedLength(checks);
  }
}
