/**
 * The thirteen Yahtzee score categories, in the canonical order that the
 * scorecard, keyboard navigation and the wire protocol all rely on, together
 * with their display names (the enum values of game_engine.Category).
 */
module Categories {

  datatype Category =
    | Ones | Twos | Threes | Fours | Fives | Sixes
    | ThreeOfKind | FourOfKind | FullHouse
    | SmallStraight | LargeStraight | Yahtzee | Chance

  /** Enum iteration order of `Category`; also the frontend's CATEGORY_ORDER. */
  const AllCategories: seq<Category> :=
    [Ones, Twos, Threes, Fours, Fives, Sixes,
     ThreeOfKind, FourOfKind, FullHouse,
     SmallStraight, LargeStraight, Yahtzee, Chance]

  const NumCategories: nat := 13

  const UpperCategories: seq<Category> := [Ones, Twos, Threes, Fours, Fives, Sixes]

  const LowerCategories: seq<Category> :=
    [ThreeOfKind, FourOfKind, FullHouse, SmallStraight, LargeStraight, Yahtzee, Chance]

  /** Position of a category in the canonical order. */
  function Index(c: Category): (i: nat)
    ensures i < NumCategories && |AllCategories| == NumCategories
    ensures AllCategories[i] == c
  {
    match c
    case Ones => 0
    case Twos => 1
    case Threes => 2
    case Fours => 3
    case Fives => 4
    case Sixes => 5
    case ThreeOfKind => 6
    case FourOfKind => 7
    case FullHouse => 8
    case SmallStraight => 9
    case LargeStraight => 10
    case Yahtzee => 11
    case Chance => 12
  }

  /** The canonical order lists every category exactly once. */
  lemma AllCategoriesDistinct()
    ensures |AllCategories| == NumCategories
    ensures forall i, j :: 0 <= i < j < |AllCategories| ==> AllCategories[i] != AllCategories[j]
    ensures forall c: Category :: c in AllCategories
  {
    forall i, j | 0 <= i < j < |AllCategories|
      ensures AllCategories[i] != AllCategories[j]
    {
      assert Index(AllCategories[i]) == i;
      assert Index(AllCategories[j]) == j;
    }
    forall c: Category ensures c in AllCategories {
      assert AllCategories[Index(c)] == c;
    }
  }

  predicate IsUpper(c: Category) {
    c.Ones? || c.Twos? || c.Threes? || c.Fours? || c.Fives? || c.Sixes?
  }

  /** Face value an upper category counts (the `_UPPER_CATS` table of ai.py). */
  function Face(c: Category): (f: int)
    requires IsUpper(c)
    ensures 1 <= f <= 6
    ensures f == Index(c) + 1
  {
    match c
    case Ones => 1
    case Twos => 2
    case Threes => 3
    case Fours => 4
    case Fives => 5
    case Sixes => 6
  }

  /** The upper category that counts face `f`. */
  function UpperFor(f: int): (c: Category)
    requires 1 <= f <= 6
    ensures IsUpper(c) && Face(c) == f
  {
    AllCategories[f - 1]
  }

  /** Display name: the string the UI shows and the web protocol sends. */
  function Name(c: Category): string {
    match c
    case Ones => "Ones"
    case Twos => "Twos"
    case Threes => "Threes"
    case Fours => "Fours"
    case Fives => "Fives"
    case Sixes => "Sixes"
    case ThreeOfKind => "3 of a Kind"
    case FourOfKind => "4 of a Kind"
    case FullHouse => "Full House"
    case SmallStraight => "Small Straight"
    case LargeStraight => "Large Straight"
    case Yahtzee => "Yahtzee"
    case Chance => "Chance"
  }

  /** No two categories share a display name, so a name identifies its category. */
  lemma NamesInjective(c: Category, d: Category)
    ensures Name(c) == Name(d) ==> c == d
  {
  }
}
