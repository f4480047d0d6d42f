/** The status badge both transaction tables draw: a colour chosen by the
    status label, and the label with its first letter capitalised. */
module StatusBadge {

  datatype BadgeColour = Green | Yellow | Red

  /** `completed` is green, `pending` yellow, and every other label red. */
  function StatusColour(status: string): (c: BadgeColour)
    ensures c == Green <==> status == "completed"
    ensures c == Yellow <==> status == "pending"
    ensures c == Red <==> status != "completed" && status != "pending"
  {
    if status == "completed" then Green
    else if status == "pending" then Yellow
    else Red
  }

  predicate IsLowerAscii(c: char) {
    'a' <= c <= 'z'
  }

  /** `toUpperCase` on one character, for the ASCII letters. */
  function UpperAscii(c: char): (u: char)
    ensures !IsLowerAscii(u)
    ensures !IsLowerAscii(c) ==> u == c
    ensures IsLowerAscii(c) ==> 'A' <= u <= 'Z' && u as int - c as int == 'A' as int - 'a' as int
  {
    if IsLowerAscii(c) then (c as int - 'a' as int + 'A' as int) as char else c
  }

  /** `s.charAt(0).toUpperCase() + s.slice(1)`. */
  function CapitalizeFirstLetter(s: string): (r: string)
    ensures |r| == |s|
    ensures s == [] ==> r == []
    ensures s != [] ==> r[1..] == s[1..] && !IsLowerAscii(r[0])
    ensures s != [] && !IsLowerAscii(s[0]) ==> r == s
  {
    if s == [] then [] else [UpperAscii(s[0])] + s[1..]
  }

  /** Capitalising twice is capitalising once. */
  lemma CapitalizeIdempotent(s: string)
    ensures CapitalizeFirstLetter(CapitalizeFirstLetter(s)) == CapitalizeFirstLetter(s)
  {
  }

  /** Two labels capitalise alike exactly when they differ at most in the
      case of their first letter. */
  lemma CapitalizeSameExactly(a: string, b: string)
    ensures CapitalizeFirstLetter(a) == CapitalizeFirstLetter(b)
        <==> |a| == |b| && (a != [] ==> a[1..] == b[1..] && UpperAscii(a[0]) == UpperAscii(b[0]))
  {
    if CapitalizeFirstLetter(a) == CapitalizeFirstLetter(b) && a != [] {
      assert CapitalizeFirstLetter(a)[1..] == CapitalizeFirstLetter(b)[1..];
      assert CapitalizeFirstLetter(a)[0] == CapitalizeFirstLetter(b)[0];
    }
  }

  /** The labels of the three statuses the table colours differently. */
  lemma KnownStatusLabels()
    ensures CapitalizeFirstLetter("completed") == "Completed"
    ensures CapitalizeFirstLetter("pending") == "Pending"
    ensures CapitalizeFirstLetter("failed") == "Failed"
  {
  }
}
