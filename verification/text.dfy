/** `String.prototype.split` with a one-character separator, and its inverse
    `Array.prototype.join`. Empty pieces are kept, as in JavaScript:
    "a  b".split(' ') is ["a", "", "b"] and "".split(' ') is [""]. */
module Text {

  /** The pieces joined back with the separator between them. */
  function Join(parts: seq<string>, sep: char): string
    requires |parts| >= 1
    decreases |parts|
  {
    if |parts| == 1 then parts[0] else parts[0] + [sep] + Join(parts[1..], sep)
  }

  /** `s.split(sep)`. */
  function Split(s: string, sep: char): (parts: seq<string>)
    ensures |parts| >= 1
    ensures forall i :: 0 <= i < |parts| ==> sep !in parts[i]
    ensures Join(parts, sep) == s
    decreases |s|
  {
    if s == [] then [[]]
    else
      var rest := Split(s[1..], sep);
      if s[0] == sep then
        assert Join([[]] + rest, sep) == [sep] + Join(rest, sep) by {
          assert ([[]] + rest)[1..] == rest;
        }
        [[]] + rest
      else
        var parts := [[s[0]] + rest[0]] + rest[1..];
        JoinConsFirst(rest, sep, s[0]);
        parts
  }

  /** Prepending a character to the first piece prepends it to the joined string. */
  lemma JoinConsFirst(parts: seq<string>, sep: char, ch: char)
    requires |parts| >= 1
    ensures Join([[ch] + parts[0]] + parts[1..], sep) == [ch] + Join(parts, sep)
  {
  }

  /** Splitting a join of separator-free pieces gives the pieces back. */
  lemma {:induction false} SplitJoin(parts: seq<string>, sep: char)
    requires |parts| >= 1
    requires forall i :: 0 <= i < |parts| ==> sep !in parts[i]
    ensures Split(Join(parts, sep), sep) == parts
    decreases |parts|, |parts[0]|
  {
    var p0 := parts[0];
    if p0 == [] {
      if |parts| > 1 {
        SplitJoin(parts[1..], sep);
        var s := Join(parts, sep);
        assert s == [sep] + Join(parts[1..], sep);
        assert s[1..] == Join(parts[1..], sep);
        assert parts == [[]] + parts[1..];
      }
    } else {
      var tail := [p0[1..]] + parts[1..];
      assert tail[1..] == parts[1..];
      assert forall i :: 0 <= i < |tail| ==> sep !in tail[i] by {
        forall i | 0 <= i < |tail| ensures sep !in tail[i] {
          if i == 0 {
            assert sep !in p0;
          } else {
            assert tail[i] == parts[i];
          }
        }
      }
      SplitJoin(tail, sep);
      JoinConsFirst(tail, sep, p0[0]);
      assert [p0[0]] + tail[0] == p0;
      assert [[p0[0]] + tail[0]] + tail[1..] == parts;
      var s := Join(parts, sep);
      assert s[0] == p0[0] && s[0] != sep;
      assert s[1..] == Join(tail, sep);
    }
  }
}
