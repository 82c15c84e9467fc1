/**
 * PlayersBox: the lobby's list of player names as the client shows them,
 * each name cut to at most 23 characters, each listed once.
 */
module PlayersBoxes {
  import opened Wrappers
  import opened Lists

  /** The longest name the box shows. */
  const NAME_WIDTH := 23

  /**
   * truncate: a string no longer than maxSize is kept; a longer one is cut
   * to its first maxSize - 3 characters followed by "...", which makes it
   * exactly maxSize long. substring fails for maxSize < 3 on a long string.
   */
  function Truncate(str: string, maxSize: int): (r: string)
    requires |str| <= maxSize || maxSize >= 3
    ensures |str| <= maxSize ==> r == str
    ensures |str| > maxSize ==> |r| == maxSize && r[..maxSize - 3] == str[..maxSize - 3] && r[maxSize - 3..] == "..."
    ensures |r| <= maxSize
  {
    if |str| > maxSize then str[..maxSize - 3] + "..." else str
  }

  /** Every character of s lies in the Basic Multilingual Plane, below U+10000. */
  predicate InBmp(s: string)
  {
    forall k :: 0 <= k < |s| ==> s[k] as int < 0x1_0000
  }

  /**
   * String.length: the number of UTF-16 code units of s, one for a
   * character below U+10000 and two (a surrogate pair) for any other.
   */
  function Utf16Length(s: string): (n: nat)
    decreases |s|
  {
    if |s| == 0 then 0 else Utf16Length(s[..|s| - 1]) + if s[|s| - 1] as int < 0x1_0000 then 1 else 2
  }

  /**
   * Java's length is never below the model's, and equals it exactly when
   * every character is below U+10000: on such names Truncate measures and
   * cuts as String.length and substring do.
   */
  lemma {:induction false} Utf16LengthBmp(s: string)
    ensures |s| <= Utf16Length(s)
    ensures Utf16Length(s) == |s| <==> InBmp(s)
    decreases |s|
  {
    if |s| > 0 {
      var p := s[..|s| - 1];
      Utf16LengthBmp(p);
      assert forall k :: 0 <= k < |p| ==> p[k] == s[k];
      if InBmp(s) {
        assert InBmp(p);
      }
    }
  }

  /** Truncating a truncated string changes nothing. */
  lemma TruncateIdempotent(str: string, maxSize: int)
    requires |str| <= maxSize || maxSize >= 3
    ensures Truncate(Truncate(str, maxSize), maxSize) == Truncate(str, maxSize)
  {
  }

  /** Names that agree on their first maxSize - 3 characters and are both too long are shown alike. */
  lemma TruncateCollides(a: string, b: string, maxSize: int)
    requires maxSize >= 3 && |a| > maxSize && |b| > maxSize
    ensures Truncate(a, maxSize) == Truncate(b, maxSize) <==> a[..maxSize - 3] == b[..maxSize - 3]
  {
    if Truncate(a, maxSize) == Truncate(b, maxSize) {
      assert Truncate(a, maxSize)[..maxSize - 3] == a[..maxSize - 3];
    }
  }

  class PlayersBox {
    /** The shown names, in the order they were added. */
    var items: seq<string>
    /** Whether the list changed since it was last drawn. */
    var needsRefresh: bool

    /** Every shown name is at most NAME_WIDTH long and none is shown twice. */
    ghost predicate Valid()
      reads this
    {
      Distinct(items) && forall i :: 0 <= i < |items| ==> |items[i]| <= NAME_WIDTH
    }

    constructor ()
      ensures Valid() && items == [] && !needsRefresh
    {
      items, needsRefresh := [], false;
    }

    /**
     * addPlayer: a missing name is ignored; otherwise the truncated name
     * is listed last unless it is already listed.
     */
    method AddPlayer(who: Option<string>)
      requires Valid()
      modifies this
      ensures Valid()
      ensures who.None? ==> items == old(items) && needsRefresh == old(needsRefresh)
      ensures who.Some? ==> var t := Truncate(who.value, NAME_WIDTH);
        t in items &&
        (t in old(items) ==> items == old(items) && needsRefresh == old(needsRefresh)) &&
        (t !in old(items) ==> items == old(items) + [t] && needsRefresh)
    {
      if who.Some? {
        var t := Truncate(who.value, NAME_WIDTH);
        if t !in items {
          items := items + [t];
          needsRefresh := true;
        }
      }
    }

    /** removePlayer: a missing name is ignored; otherwise the truncated name is no longer listed. */
    method RemovePlayer(who: Option<string>)
      requires Valid()
      modifies this
      ensures Valid()
      ensures who.None? ==> items == old(items) && needsRefresh == old(needsRefresh)
      ensures who.Some? ==> var t := Truncate(who.value, NAME_WIDTH);
        items == Removed(old(items), t) && t !in items && needsRefresh
    {
      if who.Some? {
        var t := Truncate(who.value, NAME_WIDTH);
        RemovedDistinct(items, t);
        items := Removed(items, t);
        needsRefresh := true;
      }
    }
  }

  /** Removing a name that was just added gives back the list from before, when it was not listed. */
  lemma AddThenRemove(items: seq<string>, t: string)
    requires t !in items
    ensures Removed(items + [t], t) == items
  {
    var s := items + [t];
    var k := IndexOf(s, t);
    assert s[|items|] == t;
    assert forall j :: 0 <= j < |items| ==> s[j] == items[j];
    assert s[..k] == items;
  }
}
