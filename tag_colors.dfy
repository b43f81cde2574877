/**
 * The process-wide tag colour cache of PersonCard: a fixed seven-entry palette
 * and a map from tag label to colour that is filled lazily, one tag at a
 * time, and never shrinks.
 */
module TagColors {

  /** The fixed palette, in order (the static `colors` array). */
  const Palette: seq<string> := ["#ff8080", "#009999", "#4da6ff", "#ff9933", "#00e68a", "#ff80ff", "grey"]

  /** The colour a tag receives the first time it is looked up. */
  function ColorFor(tag: string): (c: string)
    ensures c in Palette
  {
    Palette[|tag| % |Palette|]
  }

  /** Every stored entry holds the colour its tag was first given. */
  ghost predicate ValidMapping(m: map<string, string>)
  {
    forall l :: l in m ==> m[l] == ColorFor(l)
  }

  /** The cache after one lookup: an absent tag is bound, a present one is left alone. */
  function Lookup(m: map<string, string>, tag: string): (m': map<string, string>)
    ensures m'.Keys == m.Keys + {tag}
    ensures forall k :: k in m ==> m'[k] == m[k]
    ensures tag !in m ==> m'[tag] == ColorFor(tag)
  {
    if tag in m then m else m[tag := ColorFor(tag)]
  }

  /** The cache after looking up each tag in order. */
  function Assign(m: map<string, string>, tags: seq<string>): (m': map<string, string>)
  {
    if tags == [] then m else Lookup(Assign(m, tags[..|tags| - 1]), tags[|tags| - 1])
  }

  /** Lookups never overwrite or remove an entry: every old key keeps its value. */
  lemma {:induction false} AssignKeepsEntries(m: map<string, string>, tags: seq<string>)
    ensures forall k :: k in m ==> k in Assign(m, tags) && Assign(m, tags)[k] == m[k]
  {
    if tags != [] {
      AssignKeepsEntries(m, tags[..|tags| - 1]);
    }
  }

  /** The keys after a run of lookups are exactly the old keys plus the tags looked up. */
  lemma {:induction false} AssignKeys(m: map<string, string>, tags: seq<string>)
    ensures Assign(m, tags).Keys == m.Keys + set l | l in tags
  {
    if tags != [] {
      var init := tags[..|tags| - 1];
      AssignKeys(m, init);
      assert tags == init + [tags[|tags| - 1]];
      assert (set l | l in tags) == (set l | l in init) + {tags[|tags| - 1]};
    }
  }

  /** A run of lookups keeps every entry equal to the colour its tag was first given. */
  lemma {:induction false} AssignPreservesValid(m: map<string, string>, tags: seq<string>)
    requires ValidMapping(m)
    ensures ValidMapping(Assign(m, tags))
  {
    if tags != [] {
      AssignPreservesValid(m, tags[..|tags| - 1]);
    }
  }

  /**
   * Once a tag has been looked up, its colour never changes, whatever other
   * tags are looked up afterwards; the memoised colour wins even over a cache
   * that did not hold ColorFor(tag).
   */
  lemma {:induction false} SameTagSameColor(m: map<string, string>, tag: string, others: seq<string>)
    ensures tag in Assign(Lookup(m, tag), others)
    ensures Assign(Lookup(m, tag), others)[tag] == Lookup(m, tag)[tag]
  {
    AssignKeepsEntries(Lookup(m, tag), others);
  }

  /** Labels whose lengths agree modulo the palette size share a colour (collisions are expected). */
  lemma SameLengthClassSameColor(a: string, b: string)
    requires |a| % 7 == |b| % 7
    ensures ColorFor(a) == ColorFor(b)
  {
  }

  /** The shared colour cache (the static `colorMapping` map). */
  class TagColorizer {
    var mapping: map<string, string>

    ghost predicate Valid()
      reads this
    {
      ValidMapping(mapping)
    }

    /** A fresh, empty cache. */
    constructor ()
      ensures Valid()
      ensures mapping == map[]
    {
      mapping := map[];
    }

    /**
     * mapTagToColor: bind the tag to its palette colour on first sight, then
     * return the stored colour.
     */
    method MapTagToColor(tag: string) returns (color: string)
      requires Valid()
      modifies this
      ensures Valid()
      ensures mapping == Lookup(old(mapping), tag)
      ensures tag in old(mapping) ==> mapping == old(mapping) && color == old(mapping)[tag]
      ensures tag !in old(mapping) ==> mapping == old(mapping)[tag := Palette[|tag| % 7]]
      ensures color == mapping[tag] == ColorFor(tag)
      ensures color in Palette
    {
      if tag !in mapping {
        mapping := mapping[tag := Palette[|tag| % |Palette|]];
      }
      color := mapping[tag];
    }
  }
}
