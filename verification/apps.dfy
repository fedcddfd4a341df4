/** The app record of the catalog (`appsData`, a module that is not part of this
    model and is taken as a parameter everywhere), the id tests the pages use, and
    the case-insensitive title search of the catalog page. */
module Apps {
  import opened Seqs

  /** One catalog app. Installed entries are whole copies of it. Its float rating
      and the presentation fields other than title, company and image are left out. */
  datatype App = App(id: int, title: string, companyName: string, image: string, downloads: int)

  /** The app has id `id`: the test the detail page looks apps up with. */
  function WithId(id: int): App -> bool
  {
    (a: App) => a.id == id
  }

  /** The app's id differs from `id`: the test the uninstall filter keeps by. */
  function OtherThan(id: int): App -> bool
  {
    (a: App) => a.id != id
  }

  /** Some entry of the list has id `id`. */
  predicate HasId(list: seq<App>, id: int)
  {
    Any(list, WithId(id))
  }

  /** No two entries share an id. */
  ghost predicate UniqueIds(list: seq<App>)
  {
    forall i, j :: 0 <= i < j < |list| ==> list[i].id != list[j].id
  }

  // ---- case-insensitive substring search (`toLowerCase` and `includes`) ----

  /** `toLowerCase` on one character, restricted to ASCII. */
  function Lower(c: char): char
  {
    if 'A' <= c <= 'Z' then (c as int + 32) as char else c
  }

  /** A string lowered character by character: same length, no ASCII capital left. */
  function LowerStr(s: string): (r: string)
    ensures |r| == |s|
    ensures forall i :: 0 <= i < |r| ==> !('A' <= r[i] <= 'Z')
  {
    seq(|s|, i requires 0 <= i < |s| => Lower(s[i]))
  }

  /** Substring search as `includes` does it: a left-to-right scan for `needle` in
      `hay`. */
  predicate Includes(hay: string, needle: string)
    ensures Includes(hay, needle) ==> |needle| <= |hay|
    decreases |hay|
  {
    |needle| <= |hay| && (hay[..|needle|] == needle || Includes(hay[1..], needle))
  }

  /** `needle` occurs in `hay` starting at position `i`. */
  ghost predicate OccursAt(hay: string, needle: string, i: int)
  {
    0 <= i && i + |needle| <= |hay| && hay[i..i + |needle|] == needle
  }

  /** The scan finds `needle` exactly when it occurs somewhere in `hay`. */
  lemma {:induction false} IncludesIffOccurs(hay: string, needle: string)
    ensures Includes(hay, needle) <==> exists i :: OccursAt(hay, needle, i)
    decreases |hay|
  {
    if |needle| > |hay| {
    } else if hay[..|needle|] == needle {
      assert OccursAt(hay, needle, 0);
    } else {
      assert !OccursAt(hay, needle, 0);
      IncludesIffOccurs(hay[1..], needle);
      if i :| OccursAt(hay[1..], needle, i) {
        assert hay[1..][i..i + |needle|] == hay[i + 1..i + 1 + |needle|];
        assert OccursAt(hay, needle, i + 1);
      }
      if i :| OccursAt(hay, needle, i) {
        assert i >= 1;
        assert hay[1..][i - 1..i - 1 + |needle|] == hay[i..i + |needle|];
        assert OccursAt(hay[1..], needle, i - 1);
      }
    }
  }

  /** An empty search term is found in every title. */
  lemma EmptyIncludedEverywhere(hay: string)
    ensures Includes(hay, "")
  {
    assert hay[..0] == "";
  }

  /** Lowering both sides keeps every occurrence: a title that contains the term as
      typed also contains it once both are lowered. */
  lemma IncludesLowered(hay: string, needle: string)
    requires Includes(hay, needle)
    ensures Includes(LowerStr(hay), LowerStr(needle))
  {
    IncludesIffOccurs(hay, needle);
    var i :| OccursAt(hay, needle, i);
    assert LowerStr(hay)[i..i + |needle|] == LowerStr(needle);
    assert OccursAt(LowerStr(hay), LowerStr(needle), i);
    IncludesIffOccurs(LowerStr(hay), LowerStr(needle));
  }
}
