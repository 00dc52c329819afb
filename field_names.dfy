/** `capitalize` and `normaliseFieldName`: multi-part REST endpoints such as
    "products/categories" become camelCase field names such as "productsCategories". */
module FieldNames {
  import opened Js

  /** `capitalize(s)`: `s[0].toUpperCase() + s.slice(1)`. On the empty string `s[0]` is
      `undefined`, so the call throws. */
  function Capitalize(s: string): (r: Result<string>)
    ensures r.Ok? <==> s != ""
    ensures r.Ok? ==> SameUpToUpper(r.value, s) && !IsLower(r.value[0]) && r.value[1..] == s[1..]
  {
    if s == "" then TypeError else Ok([Upper(s[0])] + s[1..])
  }

  /** `a` is `b` with some characters upper-cased. */
  ghost predicate SameUpToUpper(a: string, b: string) {
    |a| == |b| && forall i :: 0 <= i < |a| ==> a[i] == b[i] || a[i] == Upper(b[i])
  }

  /** Capitalising twice is capitalising once. */
  lemma CapitalizeIdempotent(s: string)
    requires s != ""
    ensures Capitalize(Capitalize(s).value) == Capitalize(s)
  {
    var c := Capitalize(s).value;
    assert [Upper(c[0])] + c[1..] == c;
  }

  predicate NoSlash(s: string) {
    forall i :: 0 <= i < |s| ==> s[i] != '/'
  }

  /** `s.split("/")`: the segments between slashes, in order; there is always at least one. */
  function Split(s: string): (parts: seq<string>)
    ensures 1 <= |parts|
    decreases |s|
  {
    if s == "" then [""]
    else
      var init := Split(s[..|s| - 1]);
      var c := s[|s| - 1];
      if c == '/' then init + [""]
      else init[..|init| - 1] + [init[|init| - 1] + [c]]
  }

  /** `parts.join("/")`, the inverse of `Split`. */
  function Join(parts: seq<string>): string
    requires 1 <= |parts|
    decreases |parts|
  {
    if |parts| == 1 then parts[0] else Join(parts[..|parts| - 1]) + "/" + parts[|parts| - 1]
  }

  /** Joining the segments of `s` gives back `s`, and no segment contains a slash. */
  lemma {:induction false} JoinSplit(s: string)
    ensures Join(Split(s)) == s
    ensures forall k :: 0 <= k < |Split(s)| ==> NoSlash(Split(s)[k])
    decreases |s|
  {
    if s != "" {
      var p := s[..|s| - 1];
      var c := s[|s| - 1];
      assert s == p + [c];
      JoinSplit(p);
      SplitSnoc(p, c);
      if c == '/' {
        JoinSnocEmpty(Split(p));
      } else {
        JoinExtendLast(Split(p), c);
      }
    }
  }

  /** A trailing slash: joining one more, empty, segment appends a slash. */
  lemma JoinSnocEmpty(parts: seq<string>)
    requires 1 <= |parts|
    requires forall k :: 0 <= k < |parts| ==> NoSlash(parts[k])
    ensures Join(parts + [""]) == Join(parts) + "/"
    ensures forall k :: 0 <= k < |parts + [""]| ==> NoSlash((parts + [""])[k])
  {
    assert (parts + [""])[..|parts|] == parts;
  }

  /** Extending the last segment by a character other than a slash extends the join by it. */
  lemma JoinExtendLast(parts: seq<string>, c: char)
    requires 1 <= |parts| && c != '/'
    requires forall k :: 0 <= k < |parts| ==> NoSlash(parts[k])
    ensures var m := |parts|; var ext := parts[..m - 1] + [parts[m - 1] + [c]];
      Join(ext) == Join(parts) + [c] &&
      forall k :: 0 <= k < |ext| ==> NoSlash(ext[k])
  {
    var m := |parts|;
    var ext := parts[..m - 1] + [parts[m - 1] + [c]];
    assert ext[..m - 1] == parts[..m - 1];
    if m > 1 {
      assert Join(ext) == Join(parts[..m - 1]) + "/" + (parts[m - 1] + [c]);
    }
    forall k | 0 <= k < m
      ensures NoSlash(ext[k])
    {
      if k < m - 1 {
        assert ext[k] == parts[k];
      }
    }
  }

  /** One more character: a slash opens a new segment, any other character extends the last one. */
  lemma SplitSnoc(s: string, c: char)
    ensures var parts := Split(s);
      Split(s + [c]) == if c == '/' then parts + [""]
                        else parts[..|parts| - 1] + [parts[|parts| - 1] + [c]]
  {
    assert (s + [c])[..|s|] == s;
  }

  /** Appending slash-free text to a string extends its last segment. */
  lemma {:induction false} SplitAppend(p: string, t: string)
    requires NoSlash(t)
    ensures var parts := Split(p); Split(p + t) == parts[..|parts| - 1] + [parts[|parts| - 1] + t]
    decreases |t|
  {
    var parts := Split(p);
    var m := |parts|;
    if t == "" {
      assert p + t == p;
      assert parts[m - 1] + t == parts[m - 1];
      assert parts[..m - 1] + [parts[m - 1]] == parts;
    } else {
      var t' := t[..|t| - 1];
      var c := t[|t| - 1];
      assert c != '/';
      assert t == t' + [c];
      assert p + t == (p + t') + [c];
      SplitAppend(p, t');
      SplitSnoc(p + t', c);
      ExtendLast(parts, t', c);
    }
  }

  /** Extending the last segment by `a` and then by `c` extends it by `a + [c]`. */
  lemma ExtendLast(parts: seq<string>, a: string, c: char)
    requires 1 <= |parts|
    ensures var m := |parts|;
      var prev := parts[..m - 1] + [parts[m - 1] + a];
      prev[..|prev| - 1] + [prev[|prev| - 1] + [c]] == parts[..m - 1] + [parts[m - 1] + (a + [c])]
  {
    var m := |parts|;
    var prev := parts[..m - 1] + [parts[m - 1] + a];
    assert prev[..m - 1] == parts[..m - 1];
    assert (parts[m - 1] + a) + [c] == parts[m - 1] + (a + [c]);
  }

  /** Splitting the join of slash-free segments gives back the segments. */
  lemma {:induction false} SplitJoin(parts: seq<string>)
    requires 1 <= |parts|
    requires forall k :: 0 <= k < |parts| ==> NoSlash(parts[k])
    ensures Split(Join(parts)) == parts
    decreases |parts|
  {
    if |parts| == 1 {
      SplitSingle(parts[0]);
    } else {
      var init := parts[..|parts| - 1];
      var last := parts[|parts| - 1];
      assert parts == init + [last];
      assert forall k :: 0 <= k < |init| ==> init[k] == parts[k];
      SplitJoin(init);
      SplitJoinSnoc(init, last);
    }
  }

  /** A slash-free string is a single segment. */
  lemma SplitSingle(x: string)
    requires NoSlash(x)
    ensures Split(Join([x])) == [x]
  {
    SplitAppend("", x);
    assert "" + x == x;
  }

  /** One more segment joined after a slash is split off again. */
  lemma SplitJoinSnoc(init: seq<string>, last: string)
    requires 1 <= |init| && NoSlash(last)
    requires Split(Join(init)) == init
    ensures Split(Join(init + [last])) == init + [last]
  {
    var parts := init + [last];
    assert parts[..|parts| - 1] == init;
    SplitSnoc(Join(init), '/');
    SplitAppend(Join(init) + "/", last);
    FillLast(init, last);
  }

  /** Filling an empty last segment with `t`. */
  lemma FillLast(init: seq<string>, t: string)
    ensures var parts := init + [""];
      parts[..|parts| - 1] + [parts[|parts| - 1] + t] == init + [t]
  {
    assert (init + [""])[..|init|] == init;
    assert "" + t == t;
  }

  /** The concatenation of the segments, i.e. what `reduce` builds before any upper-casing. */
  function Concat(parts: seq<string>): string
    decreases |parts|
  {
    if parts == [] then "" else Concat(parts[..|parts| - 1]) + parts[|parts| - 1]
  }

  /** `s` with every slash removed. */
  function Unslashed(s: string): string
    decreases |s|
  {
    if s == "" then ""
    else if s[|s| - 1] == '/' then Unslashed(s[..|s| - 1])
    else Unslashed(s[..|s| - 1]) + [s[|s| - 1]]
  }

  /** Concatenating the segments of `s` drops exactly its slashes. */
  lemma {:induction false} ConcatSplit(s: string)
    ensures Concat(Split(s)) == Unslashed(s)
    decreases |s|
  {
    if s != "" {
      var p := s[..|s| - 1];
      var c := s[|s| - 1];
      var init := Split(p);
      var m := |init|;
      ConcatSplit(p);
      var parts := Split(s);
      if c == '/' {
        assert parts[..|parts| - 1] == init;
      } else {
        assert parts[..m - 1] == init[..m - 1];
        assert Concat(init) == Concat(init[..m - 1]) + init[m - 1];
        assert Concat(parts) == Concat(init[..m - 1]) + (init[m - 1] + [c]);
      }
    }
  }

  /** The `reduce` callback at lines 58-63: while the accumulator is still empty the segment
      is appended as it is; afterwards the segment is capitalised, which throws when it is empty. */
  function Step(whole: string, partial: string): (r: Result<string>)
    ensures r.TypeError? <==> whole != "" && partial == ""
  {
    if whole == "" then Ok(whole + partial)
    else
      match Capitalize(partial)
      case Ok(c) => Ok(whole + c)
      case TypeError => TypeError
  }

  /** `parts.reduce(Step, "")`; a throwing step aborts the whole reduction. */
  function Reduce(parts: seq<string>): Result<string>
    decreases |parts|
  {
    if parts == [] then Ok("")
    else
      match Reduce(parts[..|parts| - 1])
      case TypeError => TypeError
      case Ok(whole) => Step(whole, parts[|parts| - 1])
  }

  /** `normaliseFieldName(name)`. */
  function NormaliseFieldName(name: string): (r: Result<string>)
    ensures r.Ok? ==> |r.value| == |Unslashed(name)|
  {
    ReduceLetters(Split(name));
    ConcatSplit(name);
    Reduce(Split(name))
  }

  lemma SameUpToUpperAppend(a1: string, b1: string, a2: string, b2: string)
    requires SameUpToUpper(a1, b1) && SameUpToUpper(a2, b2)
    ensures SameUpToUpper(a1 + a2, b1 + b2)
  {
    forall i | 0 <= i < |a1 + a2|
      ensures (a1 + a2)[i] == (b1 + b2)[i] || (a1 + a2)[i] == Upper((b1 + b2)[i])
    {
      if i >= |a1| {
        assert (a1 + a2)[i] == a2[i - |a1|] && (b1 + b2)[i] == b2[i - |b1|];
      }
    }
  }

  lemma SameUpToUpperRefl(a: string)
    ensures SameUpToUpper(a, a)
  {
  }

  /** A successful reduction is the concatenation of the segments with some letters
      upper-cased, and it is empty exactly when every segment is. */
  lemma {:induction false} ReduceLetters(parts: seq<string>)
    ensures Reduce(parts).Ok? ==> SameUpToUpper(Reduce(parts).value, Concat(parts))
    ensures Reduce(parts).Ok? ==> (Reduce(parts).value == "" <==> Concat(parts) == "")
    decreases |parts|
  {
    if parts != [] {
      var init := parts[..|parts| - 1];
      var last := parts[|parts| - 1];
      ReduceLetters(init);
      if Reduce(init).Ok? && Reduce(parts).Ok? {
        var whole := Reduce(init).value;
        if whole == "" {
          SameUpToUpperRefl(last);
          SameUpToUpperAppend(whole, Concat(init), last, last);
        } else {
          SameUpToUpperAppend(whole, Concat(init), Capitalize(last).value, last);
        }
      }
    }
  }

  /** Some segment after the first is empty while the segments before it are not all empty:
      the one shape of path that makes the reduction throw. */
  ghost predicate EmptyAfterText(parts: seq<string>) {
    exists k :: 0 < k < |parts| && parts[k] == "" && Concat(parts[..k]) != ""
  }

  /** The reduction throws exactly on an empty segment that follows non-empty text. */
  lemma {:induction false} ReduceFailsIff(parts: seq<string>)
    ensures Reduce(parts).TypeError? <==> EmptyAfterText(parts)
    decreases |parts|
  {
    if parts != [] {
      var init := parts[..|parts| - 1];
      var last := parts[|parts| - 1];
      assert parts == init + [last];
      ReduceFailsIff(init);
      ReduceLetters(init);
      EmptyAfterTextSnoc(init, last);
    }
  }

  /** One more segment: the path has an empty segment after text when the segments before it
      had one, or when the new segment is empty and the text before it is not. */
  lemma EmptyAfterTextSnoc(init: seq<string>, last: string)
    ensures EmptyAfterText(init + [last]) <==>
      EmptyAfterText(init) || (last == "" && Concat(init) != "")
  {
    var parts := init + [last];
    var n := |init|;
    assert parts[..n] == init;
    if EmptyAfterText(parts) {
      var k :| 0 < k < |parts| && parts[k] == "" && Concat(parts[..k]) != "";
      if k < n {
        assert parts[..k] == init[..k];
        assert init[k] == "";
      }
    }
    if EmptyAfterText(init) {
      var k :| 0 < k < n && init[k] == "" && Concat(init[..k]) != "";
      assert parts[..k] == init[..k];
      assert parts[k] == "";
    }
    if last == "" && Concat(init) != "" {
      assert n > 0;
      assert parts[n] == "";
    }
  }

  /** `normaliseFieldName` keeps every character except the slashes, upper-casing some letters. */
  lemma NormaliseKeepsLetters(name: string)
    ensures NormaliseFieldName(name).Ok? ==> SameUpToUpper(NormaliseFieldName(name).value, Unslashed(name))
  {
    ReduceLetters(Split(name));
    ConcatSplit(name);
  }

  /** `normaliseFieldName` throws exactly on an empty segment after non-empty text, e.g. "a//b" or "a/". */
  lemma NormaliseFailsIff(name: string)
    ensures NormaliseFieldName(name).TypeError? <==> EmptyAfterText(Split(name))
  {
    ReduceFailsIff(Split(name));
  }

  /** A name without a slash is returned unchanged; in particular "" gives "". */
  lemma NormaliseSingleSegment(name: string)
    requires NoSlash(name)
    ensures NormaliseFieldName(name) == Ok(name)
  {
    SplitJoin([name]);
    assert Join([name]) == name;
    assert [name][..0] == [];
    assert Reduce([name]) == Step("", name);
    assert "" + name == name;
  }

  /** The segments after the first, each with its first character upper-cased. */
  function TitleCased(rest: seq<string>): string
    requires forall k :: 0 <= k < |rest| ==> rest[k] != ""
    decreases |rest|
  {
    if rest == [] then ""
    else
      var last := rest[|rest| - 1];
      TitleCased(rest[..|rest| - 1]) + [Upper(last[0])] + last[1..]
  }

  /** camelCase: `normaliseFieldName(/a/b/c)` is `a` followed by `b` and `c` title-cased, when
      the segments from `a` on are non-empty; leading empty segments (leading slashes) vanish. */
  lemma NormaliseCamelCase(lead: seq<string>, first: string, rest: seq<string>)
    requires forall k :: 0 <= k < |lead| ==> lead[k] == ""
    requires first != "" && NoSlash(first)
    requires forall k :: 0 <= k < |rest| ==> rest[k] != "" && NoSlash(rest[k])
    ensures NormaliseFieldName(Join(lead + [first] + rest)) == Ok(first + TitleCased(rest))
  {
    var tail := [first] + rest;
    var parts := lead + tail;
    assert lead + [first] + rest == parts;
    SegmentsUnslashed(lead, tail);
    SplitJoin(parts);
    assert Split(Join(parts)) == parts;
    ReduceEmptyPrefix(lead, tail);
    ReduceCamelCase(first, rest);
  }

  lemma SegmentsUnslashed(lead: seq<string>, tail: seq<string>)
    requires forall k :: 0 <= k < |lead| ==> lead[k] == ""
    requires forall k :: 0 <= k < |tail| ==> NoSlash(tail[k])
    ensures forall k :: 0 <= k < |lead + tail| ==> NoSlash((lead + tail)[k])
  {
    forall k | 0 <= k < |lead + tail| ensures NoSlash((lead + tail)[k]) {
      if k >= |lead| {
        assert (lead + tail)[k] == tail[k - |lead|];
      }
    }
  }

  /** Segments that are all empty leave the accumulator at "", so they do not change the result. */
  lemma {:induction false} ReduceEmptyPrefix(lead: seq<string>, parts: seq<string>)
    requires forall k :: 0 <= k < |lead| ==> lead[k] == ""
    ensures Reduce(lead + parts) == Reduce(parts)
    decreases |parts|, |lead|
  {
    if parts == [] {
      assert lead + parts == lead;
      if lead != [] {
        var init := lead[..|lead| - 1];
        ReduceEmptyPrefix(init, []);
        assert init + [] == init;
        assert Step("", "") == Ok("");
      }
    } else {
      var init := parts[..|parts| - 1];
      assert (lead + parts)[..|lead + parts| - 1] == lead + init;
      assert (lead + parts)[|lead + parts| - 1] == parts[|parts| - 1];
      ReduceEmptyPrefix(lead, init);
    }
  }

  lemma {:induction false} ReduceCamelCase(first: string, rest: seq<string>)
    requires first != ""
    requires forall k :: 0 <= k < |rest| ==> rest[k] != ""
    ensures Reduce([first] + rest) == Ok(first + TitleCased(rest))
    decreases |rest|
  {
    if rest == [] {
      assert [first] + rest == [first];
      assert [first][..0] == [];
      assert Reduce([first]) == Step("", first);
      assert "" + first == first + "";
    } else {
      var init := rest[..|rest| - 1];
      var last := rest[|rest| - 1];
      ReduceCamelCase(first, init);
      var all := [first] + rest;
      assert all[..|all| - 1] == [first] + init;
      assert all[|all| - 1] == last;
      var whole := first + TitleCased(init);
      assert whole != "";
      assert Reduce(all) == Step(whole, last);
      assert Step(whole, last) == Ok(whole + ([Upper(last[0])] + last[1..]));
      assert TitleCased(rest) == TitleCased(init) + [Upper(last[0])] + last[1..];
      assert whole + ([Upper(last[0])] + last[1..]) == first + (TitleCased(init) + [Upper(last[0])] + last[1..]);
    }
  }

  /** The example from the comment at lines 54-55. */
  lemma ProductsCategories()
    ensures NormaliseFieldName("products/categories") == Ok("productsCategories")
  {
    assert NoSlash("products") && NoSlash("categories");
    NormaliseCamelCase([], "products", ["categories"]);
    assert [] + ["products"] + ["categories"] == ["products", "categories"];
    assert Join(["products", "categories"]) == "products/categories";
    assert "products" + TitleCased(["categories"]) == "productsCategories";
  }

  /** A leading slash is dropped: "/products/categories" also gives "productsCategories". */
  lemma LeadingSlashDropped()
    ensures NormaliseFieldName("/products/categories") == Ok("productsCategories")
  {
    assert NoSlash("products") && NoSlash("categories");
    var parts := ["", "products", "categories"];
    NormaliseCamelCase([""], "products", ["categories"]);
    assert [""] + ["products"] + ["categories"] == parts;
    assert parts[..2] == ["", "products"];
    assert ["", "products"][..1] == [""];
    assert Join(["", "products"]) == "" + "/" + "products";
    assert Join(parts) == "/products" + "/" + "categories";
    assert "/products" + "/" + "categories" == "/products/categories";
    assert "products" + TitleCased(["categories"]) == "productsCategories";
  }

  /** "a//b" has an empty segment after "a", so `normaliseFieldName` throws. */
  lemma DoubleSlashThrows()
    ensures NormaliseFieldName("a//b") == TypeError
  {
    var parts := ["a", "", "b"];
    assert forall k :: 0 <= k < |parts| ==> NoSlash(parts[k]);
    SplitJoin(parts);
    assert Join(parts) == "a//b";
    assert Concat(parts[..1]) == "a";
    ReduceFailsIff(parts);
  }
}
