/** Facts about one position of a text: whether it is escaped and where its line starts. */
module Positions {
  /** An odd number of backslashes stands immediately before position `i`. */
  predicate IsEscaped(s: string, i: nat)
    requires i <= |s|
  {
    i > 0 && s[i - 1] == '\\' && !IsEscaped(s, i - 1)
  }

  /** The backward loop that counts the backslashes. */
  method ComputeIsEscaped(s: string, index: nat) returns (escaped: bool)
    requires index <= |s|
    ensures escaped == IsEscaped(s, index)
  {
    var backslashes := 0;
    var cursor: nat := index;
    while cursor > 0 && s[cursor - 1] == '\\'
      invariant cursor <= index
      invariant IsEscaped(s, index) == if backslashes % 2 == 0 then IsEscaped(s, cursor) else !IsEscaped(s, cursor)
    {
      backslashes := backslashes + 1;
      cursor := cursor - 1;
    }
    return backslashes % 2 == 1;
  }

  lemma {:induction false} IsEscapedPrefix(s: string, k: nat, i: nat)
    requires i <= k <= |s|
    ensures IsEscaped(s[..k], i) == IsEscaped(s, i)
  {
    if i > 0 {
      IsEscapedPrefix(s, k, i - 1);
    }
  }

  lemma {:induction false} IsEscapedDrop(s: string, w: nat, i: nat)
    requires w + i <= |s| && (w > 0 ==> s[w - 1] != '\\')
    ensures IsEscaped(s[w..], i) == IsEscaped(s, w + i)
  {
    if i > 0 {
      IsEscapedDrop(s, w, i - 1);
    }
  }

  /** The start of the line that holds position `i`. */
  function LineStart(s: string, i: nat): (r: nat)
    requires i <= |s|
    ensures r <= i
    ensures r == 0 || s[r - 1] == '\n'
  {
    if i == 0 || s[i - 1] == '\n' then i else LineStart(s, i - 1)
  }

  lemma {:induction false} LineStartShape(s: string, i: nat)
    requires i <= |s|
    ensures forall k :: LineStart(s, i) <= k < i ==> s[k] != '\n'
  {
    if i > 0 && s[i - 1] != '\n' {
      LineStartShape(s, i - 1);
    }
  }
}
