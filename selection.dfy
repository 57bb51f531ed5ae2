/** The selection logic of App.tsx, as functions on values: the `toggle`
    updater, the copy-list text and the grid's "is selected" marks. The
    selection is the ordered list of liked file names. */
module Selection {
  import opened Types

  /** No name occurs twice. */
  predicate Distinct(names: seq<string>) {
    forall i, j :: 0 <= i < j < |names| ==> names[i] != names[j]
  }

  // ---------------------------------------------------------------------------
  // toggle

  /** `prev.filter(f => f !== name)`: every occurrence of `name` removed,
      every other name still there. */
  function Without(names: seq<string>, name: string): (r: seq<string>)
    ensures name !in r
    ensures forall x :: x != name ==> (x in r <==> x in names)
    ensures |r| + multiset(names)[name] == |names|
  {
    if names == [] then []
    else
      assert names == [names[0]] + names[1..];
      (if names[0] == name then [] else [names[0]]) + Without(names[1..], name)
  }

  /** Filtering keeps every other name as often as it occurred. */
  lemma {:induction false} WithoutKeepsCounts(names: seq<string>, name: string)
    ensures forall x :: x != name ==> multiset(Without(names, name))[x] == multiset(names)[x]
  {
    if names != [] {
      WithoutKeepsCounts(names[1..], name);
      assert names == [names[0]] + names[1..];
    }
  }

  /** Filtering out a name that is absent changes nothing. */
  lemma {:induction false} WithoutAbsent(names: seq<string>, name: string)
    requires name !in names
    ensures Without(names, name) == names
  {
    if names != [] {
      WithoutAbsent(names[1..], name);
    }
  }

  /** Filtering distributes over concatenation, so the names that stay keep
      their relative order. */
  lemma {:induction false} WithoutConcat(a: seq<string>, b: seq<string>, name: string)
    ensures Without(a + b, name) == Without(a, name) + Without(b, name)
  {
    if a != [] {
      var head := if a[0] == name then [] else [a[0]];
      assert (a + b)[0] == a[0] && (a + b)[1..] == a[1..] + b;
      assert Without(a + b, name) == head + Without(a[1..] + b, name);
      WithoutConcat(a[1..], b, name);
      assert Without(a, name) == head + Without(a[1..], name);
      assert head + (Without(a[1..], name) + Without(b, name))
          == (head + Without(a[1..], name)) + Without(b, name);
    } else {
      assert a + b == b;
    }
  }

  /** Filtering keeps a list free of duplicates. */
  lemma {:induction false} WithoutDistinct(names: seq<string>, name: string)
    requires Distinct(names)
    ensures Distinct(Without(names, name))
  {
    if names != [] {
      var tail := names[1..];
      WithoutDistinct(tail, name);
      assert names[0] !in tail;
    }
  }

  /** The `toggle` updater: a selected name is filtered out, any other name
      is appended at the end. */
  function Toggled(names: seq<string>, name: string): (r: seq<string>)
    ensures name in r <==> name !in names
    ensures forall x :: x != name ==> (x in r <==> x in names)
    ensures name !in names ==> r == names + [name]
    ensures name in names ==> |r| < |names|
  {
    if name in names then
      assert multiset(names)[name] > 0;
      Without(names, name)
    else
      names + [name]
  }

  /** Removing a selected name keeps every other name in place and in order,
      as often as it occurred. */
  lemma ToggleRemoves(names: seq<string>, name: string)
    requires name in names
    ensures Toggled(names, name) == Without(names, name)
    ensures forall x :: x != name ==> multiset(Toggled(names, name))[x] == multiset(names)[x]
  {
    WithoutKeepsCounts(names, name);
  }

  /** Toggling keeps the selection free of duplicates. */
  lemma ToggleKeepsDistinct(names: seq<string>, name: string)
    ensures Distinct(names) ==> Distinct(Toggled(names, name))
  {
    if Distinct(names) && name in names {
      WithoutDistinct(names, name);
    }
  }

  /** Toggling an unselected name twice restores the exact list. */
  lemma ToggleTwiceAbsent(names: seq<string>, name: string)
    requires name !in names
    ensures Toggled(Toggled(names, name), name) == names
  {
    WithoutConcat(names, [name], name);
    WithoutAbsent(names, name);
    assert Without([name], name) == [];
  }

  /** Toggling a selected name twice restores the same names, but the name
      now stands once, at the end. */
  lemma ToggleTwicePresent(names: seq<string>, name: string)
    requires name in names
    ensures var r := Toggled(Toggled(names, name), name);
            && r == Without(names, name) + [name]
            && (forall x :: x in r <==> x in names)
            && multiset(r)[name] == 1
  {
  }

  /** Example: toggling "sunset.jpg" on an empty selection selects it,
      toggling again empties it. */
  lemma ToggleExample()
    ensures Toggled([], "sunset.jpg") == ["sunset.jpg"]
    ensures Toggled(["sunset.jpg"], "sunset.jpg") == []
  {
  }

  // ---------------------------------------------------------------------------
  // Grid marks

  /** `selectedFiles.includes(f.name)` for every card of the grid. */
  function CardMarks(files: seq<DriveFile>, names: seq<string>): (marks: seq<bool>)
    ensures |marks| == |files|
  {
    seq(|files|, i requires 0 <= i < |files| => files[i].name in names)
  }

  /** A card shows as selected exactly when its file's name is in the
      selection, so files that share a name share their mark. */
  lemma CardMarksByName(files: seq<DriveFile>, names: seq<string>, i: nat, j: nat)
    requires i < |files| && j < |files|
    ensures CardMarks(files, names)[i] <==> files[i].name in names
    ensures files[i].name == files[j].name ==> CardMarks(files, names)[i] == CardMarks(files, names)[j]
  {
  }

  /** Toggling a name flips the mark of exactly the cards with that name. */
  lemma ToggleFlipsMarks(files: seq<DriveFile>, names: seq<string>, name: string, i: nat)
    requires i < |files|
    ensures CardMarks(files, Toggled(names, name))[i]
            == (if files[i].name == name then !CardMarks(files, names)[i] else CardMarks(files, names)[i])
  {
  }

  // ---------------------------------------------------------------------------
  // Copy-list text

  /** `n.split('.')[0]`: the name up to its first '.', or the whole name
      when it has none. */
  function Stem(name: string): (r: string)
    ensures |r| <= |name| && r == name[..|r|]
    ensures '.' !in r
    ensures |r| == |name| || name[|r|] == '.'
  {
    if name == [] || name[0] == '.' then []
    else [name[0]] + Stem(name[1..])
  }

  /** `.map(n => n.split('.')[0])`. */
  function Stems(names: seq<string>): (r: seq<string>)
    ensures |r| == |names|
    ensures forall i :: 0 <= i < |names| ==> r[i] == Stem(names[i])
  {
    seq(|names|, i requires 0 <= i < |names| => Stem(names[i]))
  }

  const Separator: string := ", "

  /** The summed length of the parts. */
  function TotalLength(parts: seq<string>): (n: nat) {
    if parts == [] then 0 else |parts[0]| + TotalLength(parts[1..])
  }

  /** Where the part at index `i` starts in the joined text: after every
      earlier part and the separator that follows each of them. */
  function Offset(parts: seq<string>, i: nat): (at: nat)
    requires i <= |parts|
  {
    TotalLength(parts[..i]) + |Separator| * i
  }

  /** Dropping the first part moves every later offset back by that part
      and its separator. */
  lemma OffsetStep(parts: seq<string>, i: nat)
    requires 0 < i <= |parts|
    ensures Offset(parts, i) == |parts[0]| + |Separator| + Offset(parts[1..], i - 1)
  {
    assert parts[..i][1..] == parts[1..][..i - 1];
  }

  /** `.join(', ')`: every part at its offset, in order, with one separator
      right after each part but the last. */
  function Join(parts: seq<string>): (r: string)
    ensures parts == [] ==> r == ""
    ensures parts != [] ==> |r| == TotalLength(parts) + |Separator| * (|parts| - 1)
    ensures forall i :: 0 <= i < |parts| ==>
              Offset(parts, i) + |parts[i]| <= |r|
              && r[Offset(parts, i)..Offset(parts, i) + |parts[i]|] == parts[i]
    ensures forall i :: 0 <= i < |parts| - 1 ==>
              Offset(parts, i) + |parts[i]| + |Separator| <= |r|
              && r[Offset(parts, i) + |parts[i]|..Offset(parts, i) + |parts[i]| + |Separator|] == Separator
  {
    if parts == [] then ""
    else if |parts| == 1 then
      assert Offset(parts, 0) == 0 by { assert parts[..0] == []; }
      parts[0]
    else
      var head := parts[0] + Separator;
      var rest := Join(parts[1..]);
      JoinStep(parts, head, rest);
      head + rest
  }

  /** The induction step of `Join`'s contract: a first part and separator
      put in front of a text that holds the later parts at their offsets. */
  lemma JoinStep(parts: seq<string>, head: string, rest: string)
    requires |parts| > 1 && head == parts[0] + Separator
    requires forall i :: 0 <= i < |parts| - 1 ==>
               Offset(parts[1..], i) + |parts[1..][i]| <= |rest|
               && rest[Offset(parts[1..], i)..Offset(parts[1..], i) + |parts[1..][i]|] == parts[1..][i]
    requires forall i :: 0 <= i < |parts| - 2 ==>
               Offset(parts[1..], i) + |parts[1..][i]| + |Separator| <= |rest|
               && rest[Offset(parts[1..], i) + |parts[1..][i]|..Offset(parts[1..], i) + |parts[1..][i]| + |Separator|] == Separator
    ensures forall i :: 0 <= i < |parts| ==>
              Offset(parts, i) + |parts[i]| <= |head + rest|
              && (head + rest)[Offset(parts, i)..Offset(parts, i) + |parts[i]|] == parts[i]
    ensures forall i :: 0 <= i < |parts| - 1 ==>
              Offset(parts, i) + |parts[i]| + |Separator| <= |head + rest|
              && (head + rest)[Offset(parts, i) + |parts[i]|..Offset(parts, i) + |parts[i]| + |Separator|] == Separator
  {
    assert Offset(parts, 0) == 0 by { assert parts[..0] == []; }
    forall i | 0 < i < |parts|
      ensures Offset(parts, i) + |parts[i]| <= |head + rest|
      ensures (head + rest)[Offset(parts, i)..Offset(parts, i) + |parts[i]|] == parts[i]
      ensures i < |parts| - 1 ==>
                Offset(parts, i) + |parts[i]| + |Separator| <= |head + rest|
                && (head + rest)[Offset(parts, i) + |parts[i]|..Offset(parts, i) + |parts[i]| + |Separator|] == Separator
    {
      OffsetStep(parts, i);
      var at := Offset(parts[1..], i - 1);
      assert parts[1..][i - 1] == parts[i];
      SliceAfter(head, rest, at, at + |parts[i]|);
      if i < |parts| - 1 {
        SliceAfter(head, rest, at + |parts[i]|, at + |parts[i]| + |Separator|);
      }
    }
  }

  /** A slice of `b` is the same slice of `a + b`, shifted by `|a|`. */
  lemma SliceAfter(a: string, b: string, lo: nat, hi: nat)
    requires lo <= hi <= |b|
    ensures (a + b)[|a| + lo..|a| + hi] == b[lo..hi]
  {
  }

  /** The joined text ends right after its last part: together with the
      parts and separators placed by `Join`, nothing else is in it. */
  lemma {:induction false} JoinEndsWithLastPart(parts: seq<string>)
    requires parts != []
    ensures |Join(parts)| == Offset(parts, |parts| - 1) + |parts[|parts| - 1]|
  {
    if |parts| == 1 {
      assert parts[..0] == [];
    } else {
      JoinEndsWithLastPart(parts[1..]);
      OffsetStep(parts, |parts| - 1);
    }
  }

  /** The text `copyList` puts on the clipboard: the cut names in selection
      order, each at its offset, with the separator after each but the
      last. Empty for no selection. */
  function CopyText(names: seq<string>): (text: string)
    ensures names == [] ==> text == ""
    ensures |names| == 1 ==> text == Stem(names[0])
    ensures names != [] ==> |text| == Offset(Stems(names), |names| - 1) + |Stem(names[|names| - 1])|
    ensures forall i :: 0 <= i < |names| ==>
              var entry, at := Stems(names)[i], Offset(Stems(names), i);
              at + |entry| <= |text| && text[at..at + |entry|] == entry
    ensures forall i :: 0 <= i < |names| - 1 ==>
              var at := Offset(Stems(names), i) + |Stems(names)[i]|;
              at + |Separator| <= |text| && text[at..at + |Separator|] == Separator
  {
    var parts := Stems(names);
    assert names == [] ==> parts == [];
    assert |names| == 1 ==> parts == [Stem(names[0])];
    assert names != [] ==> |Join(parts)| == Offset(parts, |parts| - 1) + |parts[|parts| - 1]| by {
      if names != [] {
        JoinEndsWithLastPart(parts);
      }
    }
    Join(parts)
  }

  /** Splits a text at every ", ": the reading of the copied text as a list
      of entries. */
  function SplitEntries(text: string): (r: seq<string>)
    ensures |r| >= 1
  {
    if |text| >= 2 && text[..2] == Separator then [""] + SplitEntries(text[2..])
    else if text == [] then [""]
    else
      var rest := SplitEntries(text[1..]);
      [[text[0]] + rest[0]] + rest[1..]
  }

  /** A part without ',' is glued onto the first entry of what follows it. */
  lemma {:induction false} SplitEntriesPrefix(p: string, t: string)
    requires ',' !in p
    ensures var rest := SplitEntries(t);
            SplitEntries(p + t) == [p + rest[0]] + rest[1..]
  {
    if p != [] {
      assert (p + t)[1..] == p[1..] + t;
      assert (p + t)[0] == p[0] != ',';
      SplitEntriesPrefix(p[1..], t);
      assert [p[0]] + (p[1..] + SplitEntries(t)[0]) == p + SplitEntries(t)[0];
    } else {
      var rest := SplitEntries(t);
      assert p + t == t && p + rest[0] == rest[0];
      assert [rest[0]] + rest[1..] == rest;
    }
  }

  /** Joining parts that contain no ',' and splitting the text again gives
      the parts back. */
  lemma {:induction false} SplitJoin(parts: seq<string>)
    requires parts != []
    requires forall i :: 0 <= i < |parts| ==> ',' !in parts[i]
    ensures SplitEntries(Join(parts)) == parts
  {
    if |parts| == 1 {
      SplitEntriesPrefix(parts[0], "");
      assert parts[0] + "" == parts[0];
    } else {
      var rest := Join(parts[1..]);
      SplitJoin(parts[1..]);
      assert (Separator + rest)[..2] == Separator && (Separator + rest)[2..] == rest;
      assert parts[0] + Separator + rest == parts[0] + (Separator + rest);
      SplitEntriesPrefix(parts[0], Separator + rest);
      var r := SplitEntries(Separator + rest);
      assert r == [""] + SplitEntries(rest);
      assert r[0] == "" && r[1..] == parts[1..];
      assert parts[0] + "" == parts[0];
      assert [parts[0]] + parts[1..] == parts;
    }
  }

  /** The copied text has one entry per selected name, in selection order,
      each the name cut at its first '.', provided no such entry contains a
      ','. The empty selection copies the empty text. */
  lemma CopyTextEntries(names: seq<string>)
    requires forall i :: 0 <= i < |names| ==> ',' !in Stem(names[i])
    ensures names == [] ==> CopyText(names) == ""
    ensures names != [] ==>
              var entries := SplitEntries(CopyText(names));
              && |entries| == |names|
              && forall i :: 0 <= i < |names| ==> entries[i] == Stem(names[i])
  {
    if names != [] {
      SplitJoin(Stems(names));
    }
  }

  /** A name without '.' is copied whole. */
  lemma StemWithoutDot(name: string)
    requires '.' !in name
    ensures Stem(name) == name
  {
  }
}
