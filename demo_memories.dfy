/**
 * The stand-alone memories page with its six built-in memories: liking,
 * the search and filter controls, and the tag quick filters.
 */
module DemoMemories {
  import opened Wrappers
  import opened Text
  import opened Lists
  import MemoriesPage

  /** A built-in memory (the image address is kept only as text). */
  datatype Sample = Sample(id: int, title: string, date: string, tag: string, people: seq<string>,
                           location: string, image: string, description: string)

  const MomsBirthday: Sample :=
    Sample(1, "Mom's 75th Birthday", "March 15, 2024", "Family", ["Mom", "Dad", "Sarah"], "Home",
           "https://images.unsplash.com/photo-1464349153735-7db50ed83c84?w=400&h=300&fit=crop&crop=center",
           "A wonderful celebration with the whole family")

  const BeachVacation: Sample :=
    Sample(2, "Beach Vacation", "February 28, 2024", "Vacation", ["Sarah", "John"], "Malibu",
           "https://images.unsplash.com/photo-1507525428034-b723cf961d3e?w=400&h=300&fit=crop&crop=center",
           "Perfect sunny day at the beach")

  const ChristmasMorning: Sample :=
    Sample(3, "Christmas Morning", "December 25, 2023", "Holiday", ["Family"], "Home",
           "https://images.unsplash.com/photo-1512389142860-9c449e58a543?w=400&h=300&fit=crop&crop=center",
           "Magical Christmas morning with loved ones")

  const GoldenAnniversary: Sample :=
    Sample(4, "50th Anniversary", "November 12, 2023", "Anniversary", ["Grandparents", "Family"], "Restaurant",
           "https://images.unsplash.com/photo-1511285560929-80b456fea0bc?w=400&h=300&fit=crop&crop=center",
           "Celebrating 50 years of love")

  const Graduation: Sample :=
    Sample(5, "College Graduation", "May 20, 2023", "Birthday", ["Sarah", "Friends"], "University",
           "https://images.unsplash.com/photo-1523050854058-8df90110c9f1?w=400&h=300&fit=crop&crop=center",
           "Finally graduated! So proud of this moment")

  const ParisTrip: Sample :=
    Sample(6, "Paris Trip", "August 10, 2023", "Travel", ["Sarah", "Best Friend"], "Paris, France",
           "https://images.unsplash.com/photo-1502602898536-47ad22581b52?w=400&h=300&fit=crop&crop=center",
           "Amazing adventure in the city of lights")

  const Samples: seq<Sample> :=
    [MomsBirthday, BeachVacation, ChristmasMorning, GoldenAnniversary, Graduation, ParisTrip]

  // ---------------------------------------------------------------------
  // Filtering

  /** The search box and the four filter controls; `tag` is the quick filter, `None` for "All". */
  datatype Filters = Filters(search: string, tag: Option<string>, date: string, people: string, event: string)

  const Defaults: Filters := Filters("", None, "All Dates", "All People", "All Events")

  /** The date control offers only the two years; any other value matches nothing. */
  predicate DateMatches(date: string, s: Sample) {
    || date == "All Dates"
    || (date == "2024" && Contains(s.date, "2024"))
    || (date == "2023" && Contains(s.date, "2023"))
  }

  predicate PersonMatches(people: seq<string>, needle: string) {
    exists i :: 0 <= i < |people| && Contains(Lower(people[i]), Lower(needle))
  }

  /** The five conditions of `filteredMemories`, all of which must hold. */
  predicate Matches(f: Filters, s: Sample) {
    && (Contains(Lower(s.title), Lower(f.search)) || Contains(Lower(s.description), Lower(f.search)))
    && (f.tag.None? || s.tag == f.tag.value)
    && DateMatches(f.date, s)
    && (f.people == "All People" || PersonMatches(s.people, f.people))
    && (f.event == "All Events" || s.tag == f.event)
  }

  function Filtered(samples: seq<Sample>, f: Filters): (r: seq<Sample>)
    ensures forall i :: 0 <= i < |r| ==> Matches(f, r[i])
  {
    Keep(samples, (s: Sample) => Matches(f, s))
  }

  /** The view is an order-preserving subsequence that drops only non-matching memories. */
  lemma FilteredSubsequence(samples: seq<Sample>, f: Filters)
    ensures IsSubseq(Filtered(samples, f), samples)
    ensures forall s :: s in Filtered(samples, f) <==> s in samples && Matches(f, s)
  {
    var p := (s: Sample) => Matches(f, s);
    KeepIsSubseq(samples, p);
    forall s | s in samples && Matches(f, s)
      ensures s in Filtered(samples, f)
    {
      KeepKeeps(samples, p, s);
    }
  }

  /** With every control at its default, all six memories are shown. */
  lemma {:induction false} DefaultsShowAll()
    ensures Filtered(Samples, Defaults) == Samples && |Samples| == 6
  {
    forall i | 0 <= i < |Samples|
      ensures Matches(Defaults, Samples[i])
    {
      ContainsEmpty(Lower(Samples[i].title));
    }
    KeepAll(Samples, (s: Sample) => Matches(Defaults, s));
  }

  /**
   * A year in the date control keeps exactly the memories whose date text
   * holds that year, and any other value than the two years and
   * "All Dates" keeps none.
   */
  lemma YearFilter(samples: seq<Sample>, year: string)
    ensures var f := Filters("", None, year, "All People", "All Events");
      && (year == "2024" || year == "2023" ==>
            forall s :: s in Filtered(samples, f) <==> s in samples && Contains(s.date, year))
      && (year != "2024" && year != "2023" && year != "All Dates" ==> Filtered(samples, f) == [])
  {
    var f := Filters("", None, year, "All People", "All Events");
    FilteredSubsequence(samples, f);
    forall s | s in samples
      ensures Contains(Lower(s.title), Lower(f.search))
    {
      ContainsEmpty(Lower(s.title));
    }
    if year != "2024" && year != "2023" && year != "All Dates" {
      KeepNone(samples, (s: Sample) => Matches(f, s));
    }
  }

  /** A memory whose date text holds a year at position k passes that year's filter. */
  lemma YearAt(s: Sample, year: string, k: nat)
    requires year == "2024" || year == "2023"
    requires k + 4 <= |s.date| && s.date[k..k + 4] == year
    ensures Matches(Filters("", None, year, "All People", "All Events"), s)
  {
    ContainsAt(s.date, year, k);
    ContainsEmpty(Lower(s.title));
  }

  /** The first two built-in memories are from 2024 and so pass the "2024" filter. */
  lemma SpringOf2024Shown()
    ensures var f := Filters("", None, "2024", "All People", "All Events");
      Samples[0] in Filtered(Samples, f) && Samples[1] in Filtered(Samples, f)
  {
    var f := Filters("", None, "2024", "All People", "All Events");
    var p := (s: Sample) => Matches(f, s);
    var s0, s1 := Samples[0], Samples[1];
    assert s0 == MomsBirthday && s1 == BeachVacation;
    var d0, d1 := s0.date, s1.date;
    assert d0[10..14] == "2024";
    assert d1[13..17] == "2024";
    YearAt(s0, "2024", 10);
    YearAt(s1, "2024", 13);
    KeepKeeps(Samples, p, s0);
    KeepKeeps(Samples, p, s1);
  }

  // ---------------------------------------------------------------------
  // Tags

  /**
   * `memories.map(memory => memory.tag)` over the built-in samples; the
   * same projection as `MemoriesPage.Tags`, written again because the
   * samples are their own record type rather than the API's `Memory`.
   */
  function SampleTags(samples: seq<Sample>): (r: seq<string>)
    ensures |r| == |samples| && forall i :: 0 <= i < |r| ==> r[i] == samples[i].tag
  {
    seq(|samples|, i requires 0 <= i < |samples| => samples[i].tag)
  }

  /** `[...new Set(memories.map(memory => memory.tag))]`. */
  function UniqueTags(samples: seq<Sample>): seq<string> {
    Dedup(SampleTags(samples))
  }

  /** The quick filters of the built-in memories: six tags, one per memory. */
  lemma SampleTagList()
    ensures UniqueTags(Samples) == ["Family", "Vacation", "Holiday", "Anniversary", "Birthday", "Travel"]
  {
    var tags := SampleTags(Samples);
    var expected := ["Family", "Vacation", "Holiday", "Anniversary", "Birthday", "Travel"];
    assert Samples[0] == MomsBirthday && Samples[1] == BeachVacation && Samples[2] == ChristmasMorning;
    assert Samples[3] == GoldenAnniversary && Samples[4] == Graduation && Samples[5] == ParisTrip;
    assert tags == expected;
    DedupDistinct(expected);
  }

  /** Each tag is listed exactly once, in the order of its first appearance. */
  lemma UniqueTagsSpec(samples: seq<Sample>)
    ensures var u := UniqueTags(samples);
      && Distinct(u)
      && (forall t :: t in u <==> exists i :: 0 <= i < |samples| && samples[i].tag == t)
      && (forall i, j :: 0 <= i < j < |u| ==>
            u[i] in SampleTags(samples) && u[j] in SampleTags(samples) &&
            FirstIndex(SampleTags(samples), u[i]) < FirstIndex(SampleTags(samples), u[j]))
  {
    var tags := SampleTags(samples);
    DedupSpec(tags);
    forall t | t in tags
      ensures exists i :: 0 <= i < |samples| && samples[i].tag == t
    {
      var k := FirstIndex(tags, t);
      assert samples[k].tag == t;
    }
    forall i | 0 <= i < |samples|
      ensures samples[i].tag in tags
    {
      assert tags[i] == samples[i].tag;
    }
  }

  // ---------------------------------------------------------------------
  // The page

  class Page {
    var search: string
    var dateFilter: string
    var peopleFilter: string
    var eventFilter: string
    var selectedTag: Option<string>
    var liked: set<int>

    constructor ()
      ensures Current() == Defaults && liked == {}
    {
      search, dateFilter, peopleFilter, eventFilter := "", "All Dates", "All People", "All Events";
      selectedTag, liked := None, {};
    }

    /** The controls as they stand. */
    function Current(): Filters
      reads this
    {
      Filters(search, selectedTag, dateFilter, peopleFilter, eventFilter)
    }

    /** `filteredMemories` over the built-in memories. */
    function Shown(): (r: seq<Sample>)
      reads this
      ensures IsSubseq(r, Samples)
    {
      FilteredSubsequence(Samples, Current());
      Filtered(Samples, Current())
    }

    /** `toggleLike(memoryId)`: a copy of the liked set with `memoryId` added or removed. */
    method ToggleLike(memoryId: int)
      modifies this`liked
      ensures liked == MemoriesPage.Flip(old(liked), memoryId)
    {
      var next := liked;
      if memoryId in next {
        next := next - {memoryId};
      } else {
        next := next + {memoryId};
      }
      liked := next;
    }

    /** A quick-filter tag button: selects the tag, or clears it when it is already selected. */
    method ClickTag(tag: string)
      modifies this`selectedTag
      ensures selectedTag == (if old(selectedTag) == Some(tag) then None else Some(tag))
    {
      selectedTag := if selectedTag == Some(tag) then None else Some(tag);
    }
  }
}
