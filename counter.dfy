/** The `WORD_STATISTICS` counter as the object the handlers update in place. */
module Counter {
  import opened Statistics

  class WordStatistics {
    var counts: map<Word, nat>
    var order: seq<Word>

    /** The abstract value of the counter. */
    function View(): Table
      reads this
    {
      Table(counts, order)
    }

    ghost predicate Valid()
      reads this
    {
      WellFormed(View())
    }

    /** `Counter()`: the counter starts empty. */
    constructor ()
      ensures Valid() && View() == Empty
    {
      counts := map[];
      order := [];
    }

    /** `WORD_STATISTICS[word] += 1`. */
    method Increment(word: Word)
      requires Valid()
      modifies this
      ensures Valid()
      ensures View() == Record(old(View()), word)
      ensures CountOf(View(), word) == CountOf(old(View()), word) + 1
      ensures forall w :: w != word ==> CountOf(View(), w) == CountOf(old(View()), w)
    {
      if word in counts {
        counts := counts[word := counts[word] + 1];
      } else {
        counts := counts[word := 1];
        order := order + [word];
      }
    }
  }
}
