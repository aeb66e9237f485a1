/** The two C library string searches the file browser relies on: `strrchr`
    (last occurrence of a character) and `strstr` (is a string a substring of
    another). C strings end at their first NUL; the model's strings hold no NUL,
    so the whole sequence is the string. */
module CStrings {

  datatype Option<T> = None | Some(value: T)

  /** `strrchr(s, c)`: the index of the last occurrence of `c` in `s`, or
      `None` when `c` does not occur (the C function then returns NULL). */
  function LastIndexOf(s: string, c: char): (r: Option<nat>)
    ensures r.None? <==> c !in s
    ensures r.Some? ==> r.value < |s| && s[r.value] == c && c !in s[r.value + 1..]
  {
    if |s| == 0 then None
    else if s[|s| - 1] == c then Some(|s| - 1)
    else
      assert s == s[..|s| - 1] + [s[|s| - 1]];
      LastIndexOf(s[..|s| - 1], c)
  }

  /** `needle` starts at position `i` of `hay`. */
  predicate OccursAt(hay: string, needle: string, i: nat)
  {
    i + |needle| <= |hay| && hay[i..i + |needle|] == needle
  }

  /** `strstr(hay, needle) != NULL`: `needle` occurs somewhere in `hay`. The
      empty needle occurs in every string; a needle longer than `hay` never
      does. */
  function Contains(hay: string, needle: string): (b: bool)
    ensures b <==> exists i: nat :: OccursAt(hay, needle, i)
    ensures needle == [] ==> b
    ensures |hay| < |needle| ==> !b
  {
    assert needle == [] ==> OccursAt(hay, needle, 0);
    exists i: nat | i <= |hay| :: OccursAt(hay, needle, i)
  }
}
