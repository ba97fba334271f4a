/** `formatSummary(text)` of the patient's appointment page
    (frontend/src/pages/MyAppointments.jsx): the AI explanation of a
    prescription turned into an HTML bullet list. */
module Summary {
  import opened JsText

  /** The characters `/[*_#>-]/g` deletes. */
  const Marks: set<char> := {'*', '_', '#', '>', '-'}

  /** The characters `/\n|\•|\-/` splits at. */
  const Separators: set<char> := {'\n', '\U{2022}', '-'}

  const NoSummary := "No summary available."
  const ListOpen := "\n      <ul class=\"list-disc pl-4 space-y-1 text-sm text-gray-700\">\n        "
  const ListClose := "\n      </ul>\n    "

  /** Drops a leading run of line feeds. */
  function SkipNewlines(s: string): (r: string)
    ensures |r| <= |s|
    ensures s != [] && s[0] == '\n' ==> |r| < |s|
    ensures r == [] || r[0] != '\n'
  {
    if s != [] && s[0] == '\n' then SkipNewlines(s[1..]) else s
  }

  /** `s.replace(/\n{2,}/g, "\n")`: every run of line feeds becomes one. */
  function CollapseNewlines(s: string): string
    decreases |s|
  {
    if s == [] then []
    else if s[0] == '\n' then "\n" + CollapseNewlines(SkipNewlines(s))
    else [s[0]] + CollapseNewlines(s[1..])
  }

  /** A summary item: non-empty, trimmed, and free of the deleted marks and
      of the separators. */
  predicate IsItem(p: string) {
    Trimmed(p, Marks + Separators)
  }

  /** A non-empty string with no white space at either end and no
      character of `banned`. */
  predicate Trimmed(p: string, banned: set<char>) {
    p != [] && !IsSpace(p[0]) && !IsSpace(p[|p| - 1]) && Avoids(p, banned)
  }

  /** `.map((p) => p.trim()).filter(Boolean)`. */
  function TrimNonEmpty(parts: seq<string>, banned: set<char>): (items: seq<string>)
    requires forall k :: 0 <= k < |parts| ==> Avoids(parts[k], banned)
    ensures forall k :: 0 <= k < |items| ==> Trimmed(items[k], banned)
    ensures |items| <= |parts|
  {
    if parts == [] then []
    else
      var p := Trim(parts[0]);
      TrimTrimmed(parts[0], banned);
      TailAvoids(parts, banned);
      var rest := TrimNonEmpty(parts[1..], banned);
      if p == [] then rest
      else
        ConsTrimmed(p, rest, banned);
        [p] + rest
  }

  /** The parts after the first avoid `banned` when all parts do. */
  lemma TailAvoids(parts: seq<string>, banned: set<char>)
    requires parts != []
    requires forall k :: 0 <= k < |parts| ==> Avoids(parts[k], banned)
    ensures forall k :: 0 <= k < |parts| - 1 ==> Avoids(parts[1..][k], banned)
  {
    forall k | 0 <= k < |parts| - 1
      ensures Avoids(parts[1..][k], banned)
    {
      assert parts[1..][k] == parts[k + 1];
    }
  }

  /** An item put in front of items keeps every element an item. */
  lemma ConsTrimmed(p: string, rest: seq<string>, banned: set<char>)
    requires Trimmed(p, banned)
    requires forall k :: 0 <= k < |rest| ==> Trimmed(rest[k], banned)
    ensures forall k :: 0 <= k < |[p] + rest| ==> Trimmed(([p] + rest)[k], banned)
  {
    forall k | 0 <= k < |[p] + rest|
      ensures Trimmed(([p] + rest)[k], banned)
    {
      if k > 0 {
        assert ([p] + rest)[k] == rest[k - 1];
      }
    }
  }

  /** A part without banned characters trims to an item, unless it is blank. */
  lemma TrimTrimmed(part: string, banned: set<char>)
    requires Avoids(part, banned)
    ensures Trim(part) != [] ==> Trimmed(Trim(part), banned)
  {
    TrimEnds(part);
    TrimAvoids(part, banned);
  }

  /** The text left once the marks are deleted, blank lines collapsed and
      the ends trimmed. */
  function Cleaned(text: string): (c: string)
    ensures Avoids(c, Marks)
  {
    var removed := RemoveChars(text, Marks);
    CollapseAvoids(removed, Marks);
    TrimAvoids(CollapseNewlines(removed), Marks);
    Trim(CollapseNewlines(removed))
  }

  /** The list items of the summary. */
  function Points(text: string): (items: seq<string>)
    ensures forall k :: 0 <= k < |items| ==> IsItem(items[k])
  {
    var cleaned := Cleaned(text);
    SplitAnyAvoids(cleaned, Separators, Marks);
    ItemsOf(SplitAny(cleaned, Separators))
  }

  /** The items of a cleaned text already split at the separators. */
  function ItemsOf(parts: seq<string>): (items: seq<string>)
    requires forall k :: 0 <= k < |parts| ==> Avoids(parts[k], Marks + Separators)
    ensures forall k :: 0 <= k < |items| ==> IsItem(items[k])
  {
    TrimNonEmpty(parts, Marks + Separators)
  }

  /** `items.map((p) => `<li>${p}</li>`).join("")`. */
  function ListItems(items: seq<string>): string
  {
    if items == [] then "" else "<li>" + items[0] + "</li>" + ListItems(items[1..])
  }

  /** `formatSummary(text)`: the fixed notice for an empty text, otherwise
      a list whose items are `Points(text)`. */
  function FormatSummary(text: string): (r: string)
    ensures text == "" ==> r == NoSummary
    ensures text != "" ==> r == ListOpen + ListItems(Points(text)) + ListClose
    ensures text != "" ==> forall k :: 0 <= k < |Points(text)| ==> IsItem(Points(text)[k])
  {
    if text == "" then NoSummary else ListOpen + ListItems(Points(text)) + ListClose
  }

  // ---------------------------------------------------------------------
  // What the cleaning steps keep

  lemma {:induction false} CollapseAvoids(s: string, banned: set<char>)
    requires Avoids(s, banned) && '\n' !in banned
    ensures Avoids(CollapseNewlines(s), banned)
    decreases |s|
  {
    if s != [] {
      if s[0] == '\n' {
        var t := SkipNewlines(s);
        SkipNewlinesSuffix(s);
        CollapseAvoids(t, banned);
      } else {
        CollapseAvoids(s[1..], banned);
      }
    }
  }

  lemma {:induction false} SkipNewlinesSuffix(s: string)
    ensures SkipNewlines(s) == s[|s| - |SkipNewlines(s)|..]
    decreases |s|
  {
    if s != [] && s[0] == '\n' {
      SkipNewlinesSuffix(s[1..]);
    }
  }

  lemma TrimAvoids(s: string, banned: set<char>)
    requires Avoids(s, banned)
    ensures Avoids(Trim(s), banned)
  {
    var t := TrimStart(s);
    assert Avoids(t, banned) by {
      forall j | 0 <= j < |t| ensures t[j] !in banned {
        assert t[j] == s[|s| - |t| + j];
      }
    }
    var r := TrimEnd(t);
    forall j | 0 <= j < |r| ensures r[j] !in banned {
      assert r[j] == t[j];
    }
  }

  lemma {:induction false} SplitAnyAvoids(s: string, seps: set<char>, banned: set<char>)
    requires Avoids(s, banned)
    ensures forall k :: 0 <= k < |SplitAny(s, seps)| ==> Avoids(SplitAny(s, seps)[k], banned + seps)
    decreases |s|
  {
    var i := IndexOfAny(s, seps);
    if i >= 0 {
      SplitAnyAvoids(s[i + 1..], seps, banned);
      var head := s[..i];
      assert Avoids(head, banned) by {
        forall j | 0 <= j < |head| ensures head[j] !in banned {
          assert head[j] == s[j];
        }
      }
    }
  }

  // ---------------------------------------------------------------------
  // Round trip: the items, one per line, read back as the same items

  lemma {:induction false} JoinAvoids(items: seq<string>, banned: set<char>)
    requires forall k :: 0 <= k < |items| ==> Avoids(items[k], banned)
    requires '\n' !in banned
    ensures Avoids(Join(items, "\n"), banned)
    decreases |items|
  {
    if |items| > 1 {
      JoinAvoids(items[1..], banned);
      AvoidsConcat(items[0], "\n", banned);
      AvoidsConcat(items[0] + "\n", Join(items[1..], "\n"), banned);
    }
  }

  lemma {:induction false} CollapsePrefix(a: string, b: string)
    requires '\n' !in a
    ensures CollapseNewlines(a + b) == a + CollapseNewlines(b)
    decreases |a|
  {
    if a != [] {
      assert (a + b)[0] == a[0] && (a + b)[1..] == a[1..] + b;
      CollapsePrefix(a[1..], b);
    } else {
      assert a + b == b;
    }
  }

  /** Lines that are never empty have no run of line feeds to collapse. */
  lemma {:induction false} CollapseJoinedItems(items: seq<string>)
    requires forall k :: 0 <= k < |items| ==> items[k] != [] && '\n' !in items[k]
    ensures CollapseNewlines(Join(items, "\n")) == Join(items, "\n")
    ensures |items| > 0 ==> Join(items, "\n") != [] && Join(items, "\n")[0] == items[0][0]
    decreases |items|
  {
    if |items| == 1 {
      CollapsePrefix(items[0], "");
      assert items[0] + "" == items[0];
    } else if |items| > 1 {
      var a, b := items[0], Join(items[1..], "\n");
      CollapseJoinedItems(items[1..]);
      assert b != [] && b[0] != '\n' by {
        assert b[0] == items[1][0];
        assert items[1][0] in items[1];
      }
      assert SkipNewlines("\n" + b) == b by {
        assert ("\n" + b)[1..] == b;
      }
      CollapsePrefix(a, "\n" + b);
      assert Join(items, "\n") == a + ("\n" + b);
    }
  }

  lemma JoinLast(items: seq<string>)
    requires |items| > 0 && items[|items| - 1] != []
    ensures var s := Join(items, "\n"); s != [] && s[|s| - 1] == items[|items| - 1][|items[|items| - 1]| - 1]
    decreases |items|
  {
    if |items| > 1 {
      JoinLast(items[1..]);
    }
  }

  lemma {:induction false} TrimNonEmptyItems(items: seq<string>, banned: set<char>)
    requires forall k :: 0 <= k < |items| ==> IsItem(items[k]) && Avoids(items[k], banned)
    ensures TrimNonEmpty(items, banned) == items
    decreases |items|
  {
    if items != [] {
      TrimKeeps(items[0]);
      TrimNonEmptyItems(items[1..], banned);
    }
  }

  lemma ItemChars(p: string)
    requires IsItem(p)
    ensures '\n' !in p && Avoids(p, Marks) && Avoids(p, Separators)
  {
    forall j | 0 <= j < |p| ensures p[j] != '\n' {
      assert p[j] !in Marks + Separators;
    }
  }

  /** Items joined by line feeds neither start nor end with white space. */
  lemma JoinedItemsEnds(items: seq<string>)
    requires forall k :: 0 <= k < |items| ==> IsItem(items[k])
    ensures var s := Join(items, "\n"); s == [] || (!IsSpace(s[0]) && !IsSpace(s[|s| - 1]))
  {
    if items != [] {
      var first, last := items[0], items[|items| - 1];
      assert IsItem(first) && IsItem(last);
      JoinLast(items);
      JoinFirst(items);
    }
  }

  lemma JoinFirst(items: seq<string>)
    requires |items| > 0 && items[0] != []
    ensures var s := Join(items, "\n"); s != [] && s[0] == items[0][0]
  {
  }

  /** Items joined by line feeds are already clean. */
  lemma CleanedJoinedItems(items: seq<string>)
    requires forall k :: 0 <= k < |items| ==> IsItem(items[k])
    ensures Cleaned(Join(items, "\n")) == Join(items, "\n")
  {
    JoinedItemsUnmarked(items);
    JoinedItemsCollapsed(items);
    JoinedItemsEnds(items);
    TrimKeeps(Join(items, "\n"));
  }

  lemma JoinedItemsUnmarked(items: seq<string>)
    requires forall k :: 0 <= k < |items| ==> IsItem(items[k])
    ensures RemoveChars(Join(items, "\n"), Marks) == Join(items, "\n")
  {
    forall k | 0 <= k < |items| ensures Avoids(items[k], Marks) {
      ItemChars(items[k]);
    }
    JoinAvoids(items, Marks);
    RemoveCharsAbsent(Join(items, "\n"), Marks);
  }

  lemma JoinedItemsCollapsed(items: seq<string>)
    requires forall k :: 0 <= k < |items| ==> IsItem(items[k])
    ensures CollapseNewlines(Join(items, "\n")) == Join(items, "\n")
  {
    forall k | 0 <= k < |items| ensures items[k] != [] && '\n' !in items[k] {
      ItemChars(items[k]);
    }
    CollapseJoinedItems(items);
  }

  /** Items joined by line feeds split back into the same items. */
  lemma ItemsOfJoinedItems(items: seq<string>)
    requires forall k :: 0 <= k < |items| ==> IsItem(items[k])
    ensures forall k :: 0 <= k < |SplitAny(Join(items, "\n"), Separators)| ==>
              Avoids(SplitAny(Join(items, "\n"), Separators)[k], Marks + Separators)
    ensures ItemsOf(SplitAny(Join(items, "\n"), Separators)) == items
  {
    if items == [] {
      assert SplitAny("", Separators) == [""];
      assert Trim("") == "";
      assert TrimNonEmpty([""], Marks + Separators) == [];
    } else {
      forall k | 0 <= k < |items| ensures Avoids(items[k], Separators) {
        ItemChars(items[k]);
      }
      SplitJoin(items, '\n', Separators);
      TrimNonEmptyItems(items, Marks + Separators);
    }
  }

  /** Writing the items one per line and formatting again yields the same
      items: the cleaning is idempotent on its own output. */
  lemma PointsRoundTrip(text: string)
    ensures Points(Join(Points(text), "\n")) == Points(text)
  {
    var items := Points(text);
    var s := Join(items, "\n");
    CleanedJoinedItems(items);
    ItemsOfJoinedItems(items);
    assert Points(s) == ItemsOf(SplitAny(Cleaned(s), Separators));
  }

  /** Every '-' is deleted before the split, so a '-' never separates two
      items and a range such as "1-2" reads "12". */
  lemma HyphenDeleted(a: string, b: string)
    ensures Points(a + "-" + b) == Points(a + b)
  {
    assert RemoveChars(a + "-" + b, Marks) == RemoveChars(a + b, Marks) by {
      RemoveCharsConcat(a + "-", b, Marks);
      RemoveCharsConcat(a, "-", Marks);
      RemoveCharsConcat(a, b, Marks);
      assert RemoveChars("-", Marks) == [] by {
        assert "-"[1..] == [];
      }
      assert RemoveChars(a, Marks) + [] == RemoveChars(a, Marks);
    }
  }
}
