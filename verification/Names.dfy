/** Variable names: their parts, how they are printed and parsed, and how they move between sub-axes. */
module Names {
  import opened Common

  type Name = seq<string>

  const ITEM_DELIMITERS := [' ', '.', ',', ';', '/', '\t', '\n', 11 as char, 12 as char, '\r']
  const NAME_DELIMITERS := ['/', ' ', '\t', '\n', 11 as char, 12 as char, '\r']

  const STATE: string := "state"
  const OLD_STATE: string := "old_state"
  const FORCES: string := "forces"
  const OLD_FORCES: string := "old_forces"

  /** Items have no white space, period, comma, semicolon or slash; names are split at white space and slashes. White
      space is the blank and the characters from the tab (9) to the carriage return (13). */
  lemma Delimiters(c: char)
    ensures c in ITEM_DELIMITERS <==> 9 <= c as int <= 13 || c in " .,;/"
    ensures c in NAME_DELIMITERS <==> 9 <= c as int <= 13 || c in " /"
  {
    assert '\t' as int == 9 && '\n' as int == 10 && '\r' as int == 13;
  }

  // ---------------------------------------------------------------------------------------------
  // Splitting
  // ---------------------------------------------------------------------------------------------

  predicate Free(s: string, delims: string) {
    forall i | 0 <= i < |s| :: s[i] !in delims
  }

  /** The first position from `from` on whose character is among the delimiters, or is not, if asked for;
      the length of the string when there is none. */
  function Find(s: string, delims: string, among: bool, from: nat): (i: nat)
    requires from <= |s|
    ensures from <= i <= |s|
    ensures i < |s| ==> (s[i] in delims) == among
    ensures forall j | from <= j < i :: (s[j] in delims) != among
    decreases |s| - from
  {
    if from == |s| || (s[from] in delims) == among then from else Find(s, delims, among, from + 1)
  }

  /** The maximal runs of characters that are not delimiters. */
  function Tokens(s: string, delims: string): (tokens: seq<string>)
    ensures forall t | t in tokens :: t != [] && Free(t, delims)
    decreases |s|
  {
    if s == [] then [] else
    if s[0] in delims then Tokens(s[1..], delims) else
    var n := Find(s, delims, true, 0);
    [s[..n]] + Tokens(s[n..], delims)
  }

  lemma {:induction false} SkipDelimiters(s: string, delims: string, i: nat)
    requires i <= |s| && forall j | 0 <= j < i :: s[j] in delims
    ensures Tokens(s, delims) == Tokens(s[i..], delims)
  {
    if i > 0 {
      SkipDelimiters(s[1..], delims, i - 1);
      assert s[1..][i - 1..] == s[i..];
    }
  }

  lemma FirstToken(s: string, delims: string, n: nat)
    requires 0 < n <= |s| && Free(s[..n], delims) && (n < |s| ==> s[n] in delims)
    ensures Tokens(s, delims) == [s[..n]] + Tokens(s[n..], delims)
  {
    assert forall j | 0 <= j < n :: s[..n][j] == s[j];
    var m := Find(s, delims, true, 0);
    assert m == n;
  }

  /** A string without delimiters is one token, unless it is empty. */
  lemma TokenFree(s: string, delims: string)
    ensures Free(s, delims) ==> Tokens(s, delims) == if s == [] then [] else [s]
  {
    if Free(s, delims) && s != [] {
      assert s[..|s|] == s;
      FirstToken(s, delims, |s|);
    }
  }

  /** Splitting splits at every delimiter and nowhere else, and leaves out empty parts. */
  lemma {:induction false} TokensSplit(a: string, d: char, b: string, delims: string)
    requires d in delims
    ensures Tokens(a + [d] + b, delims) == Tokens(a, delims) + Tokens(b, delims)
    decreases |a|
  {
    hide Tokens;
    var s := a + [d] + b;
    if a == [] {
      TokenFree(a, delims);
      SkipDelimiters(s, delims, 1);
      assert s[1..] == b;
    } else if a[0] in delims {
      SkipDelimiters(a, delims, 1);
      SkipDelimiters(s, delims, 1);
      TokensSplit(a[1..], d, b, delims);
      assert s[1..] == a[1..] + [d] + b;
    } else {
      var n := Find(a, delims, true, 0);
      FirstToken(a, delims, n);
      TokensSplit(a[n..], d, b, delims);
      assert s[..n] == a[..n] && s[n..] == a[n..] + [d] + b;
      assert s[n] in delims;
      FirstToken(s, delims, n);
    }
  }

  /** `utils::split`. */
  method Split(s: string, delims: string) returns (tokens: seq<string>)
    ensures tokens == Tokens(s, delims)
  {
    tokens := [];
    var lastPos := Find(s, delims, false, 0);
    SkipDelimiters(s, delims, lastPos);
    while lastPos < |s|
      invariant lastPos <= |s| && (lastPos < |s| ==> s[lastPos] !in delims)
      invariant tokens + Tokens(s[lastPos..], delims) == Tokens(s, delims)
      decreases |s| - lastPos
    {
      var pos := Find(s, delims, true, lastPos + 1);
      var next := Find(s, delims, false, pos);
      OneToken(s, delims, lastPos, pos, next);
      tokens := tokens + [s[lastPos..pos]];
      lastPos := next;
    }
  }

  lemma OneToken(s: string, delims: string, lastPos: nat, pos: nat, next: nat)
    requires lastPos < pos <= next <= |s| && s[lastPos] !in delims
    requires forall j | lastPos < j < pos :: s[j] !in delims
    requires pos < |s| ==> s[pos] in delims
    requires forall j | pos <= j < next :: s[j] in delims
    ensures Tokens(s[lastPos..], delims) == [s[lastPos..pos]] + Tokens(s[next..], delims)
  {
    hide Tokens;
    var rest := s[lastPos..];
    assert rest[..pos - lastPos] == s[lastPos..pos] && rest[pos - lastPos..] == s[pos..];
    FirstToken(rest, delims, pos - lastPos);
    SkipDelimiters(s[pos..], delims, next - pos);
    assert s[pos..][next - pos..] == s[next..];
  }

  // ---------------------------------------------------------------------------------------------
  // Printing and parsing
  // ---------------------------------------------------------------------------------------------

  /** `validate_item_name`. */
  predicate ValidItem(item: string) {
    item != [] && Free(item, ITEM_DELIMITERS)
  }

  predicate Valid(name: Name) {
    forall item | item in name :: ValidItem(item)
  }

  /** The constructor from a list of items. */
  function Make(items: seq<string>): Attempt<Name> {
    if Valid(items) then Done(items) else Failed
  }

  /** A list of items is a name exactly when none is empty or has one of the forbidden characters. */
  lemma MakeValidates(items: seq<string>)
    ensures Make(items).Done? <==>
      forall i | 0 <= i < |items| :: items[i] != [] && forall j | 0 <= j < |items[i]| :: !(9 <= items[i][j] as int <= 13) && items[i][j] !in " .,;/"
    ensures Make(items).Done? ==> Make(items).value == items
  {
    forall c: char ensures c in ITEM_DELIMITERS <==> 9 <= c as int <= 13 || c in " .,;/" { Delimiters(c); }
    if Valid(items) {
      assert forall i | 0 <= i < |items| :: items[i] in items;
    }
  }

  function Joined(items: seq<string>): string {
    if items == [] then [] else
    var n := |items| - 1;
    Joined(items[..n]) + (if n == 0 then "" else "/") + items[n]
  }

  /** The stream operator. */
  method Print(name: Name) returns (out: string)
    ensures out == Joined(name)
  {
    out := [];
    for i := 0 to |name|
      invariant out == Joined(name[..i])
    {
      if i != 0 { out := out + "/"; }
      out := out + name[i];
      assert name[..i + 1][..i] == name[..i];
    }
    assert name[..|name|] == name;
  }

  /** `parse_` for variable names. */
  method Parse(raw: string) returns (r: Attempt<Name>)
    ensures r == Make(Tokens(raw, NAME_DELIMITERS))
  {
    var tokens := Split(raw, NAME_DELIMITERS);
    r := Make(tokens);
  }

  lemma {:induction false} JoinedFront(items: seq<string>)
    requires |items| > 1
    ensures Joined(items) == items[0] + ("/" + Joined(items[1..]))
  {
    var n := |items| - 1;
    if n == 1 {
      assert items[..1] == [items[0]] && items[1..] == [items[1]];
      assert items[..1][..0] == [];
      assert items[1..][..0] == [];
    } else {
      JoinedFront(items[..n]);
      assert items[..n][1..] == items[1..][..n - 1];
    }
  }

  lemma JoinedBack(items: seq<string>, item: string)
    ensures Joined(items + [item]) == if items == [] then item else Joined(items) + ("/" + item)
  {
    assert (items + [item])[..|items|] == items;
  }

  /** Printed parts of a name are separated by a slash. */
  lemma {:induction false} JoinedBoth(a: seq<string>, b: seq<string>, item: string)
    ensures a != [] && b != [] ==> Joined(a + b) == Joined(a) + ("/" + Joined(b))
    ensures Joined([item]) == item
    decreases |b|
  {
    hide Joined;
    assert [] + [item] == [item];
    JoinedBack([], item);
    if a != [] && b != [] {
      var front, last := b[..|b| - 1], b[|b| - 1];
      assert b == front + [last] && a + b == (a + front) + [last];
      JoinedBack(front, last);
      JoinedBack(a + front, last);
      if front == [] {
        assert a + front == a;
      } else {
        JoinedBoth(a, front, item);
        Associative(Joined(a), "/" + Joined(front), "/" + last);
        Associative("/", Joined(front), "/" + last);
      }
    }
  }

  predicate Apart(items: seq<string>) {
    forall item | item in items :: item != [] && Free(item, NAME_DELIMITERS)
  }

  /** Printed items come back exactly when none is empty and none has a character at which names are split. */
  lemma {:induction false} SplitInvertsPrint(items: seq<string>)
    ensures Tokens(Joined(items), NAME_DELIMITERS) == items <==> Apart(items)
    decreases |items|
  {
    if Apart(items) {
      if |items| == 1 {
        assert items[..0] == [] && Joined(items) == items[0];
        assert items[0] in items && items[0][..|items[0]|] == items[0];
        FirstToken(items[0], NAME_DELIMITERS, |items[0]|);
      } else if |items| > 1 {
        var s, n := Joined(items), |items[0]|;
        JoinedFront(items);
        assert s[..n] == items[0] && s[n..] == "/" + Joined(items[1..]);
        assert items[0] in items;
        FirstToken(s, NAME_DELIMITERS, n);
        assert s[n..][1..] == Joined(items[1..]);
        forall item | item in items[1..] ensures item in items {}
        SplitInvertsPrint(items[1..]);
        assert items == [items[0]] + items[1..];
      }
    }
  }

  lemma ValidIsApart(name: Name)
    requires Valid(name)
    ensures Apart(name)
  {
    assert forall c | c in NAME_DELIMITERS :: c in ITEM_DELIMITERS;
  }

  /** Printing a valid name and parsing it back gives the same name; parsing gives only valid names, which
      print and parse back again. */
  lemma ParseInvertsPrint(name: Name, raw: string)
    ensures Valid(name) ==> Make(Tokens(Joined(name), NAME_DELIMITERS)) == Done(name)
    ensures var r := Make(Tokens(raw, NAME_DELIMITERS));
      r.Done? ==> Valid(r.value) && Make(Tokens(Joined(r.value), NAME_DELIMITERS)) == r
  {
    if Valid(name) {
      ValidIsApart(name);
      SplitInvertsPrint(name);
    }
    var items := Tokens(raw, NAME_DELIMITERS);
    SplitInvertsPrint(items);
  }

  /** Different valid names print differently. */
  lemma PrintIsInjective(a: Name, b: Name)
    requires Valid(a) && Valid(b) && Joined(a) == Joined(b)
    ensures a == b
  {
    ParseInvertsPrint(a, []);
    ParseInvertsPrint(b, []);
  }

  // ---------------------------------------------------------------------------------------------
  // Moving between sub-axes
  // ---------------------------------------------------------------------------------------------

  /** `slice` with one argument. */
  function Drop(name: Name, n: nat): Attempt<Name> {
    if |name| >= n then Done(name[n..]) else Failed
  }

  /** `start_with`: it fails, rather than deny, when the other name is longer. */
  function StartWith(name: Name, other: Name): Attempt<bool> {
    if |name| >= |other| then Done(name[..|other|] == other) else Failed
  }

  /** `remount`. */
  function Remount(name: Name, other: Name, n: nat): Attempt<Name> {
    match Drop(name, n)
    case Done(rest) => Make(other + rest)
    case Failed => Failed
  }

  /** `current`. */
  function Current(name: Name): Attempt<Name> {
    if |name| < 1 then Failed
    else if StartWith(name, [OLD_STATE]) == Done(true) then Remount(name, [STATE], 1)
    else if StartWith(name, [OLD_FORCES]) == Done(true) then Remount(name, [FORCES], 1)
    else Failed
  }

  /** `old`. */
  function Old(name: Name): Attempt<Name> {
    if |name| < 1 then Failed
    else if StartWith(name, [STATE]) == Done(true) then Remount(name, [OLD_STATE], 1)
    else if StartWith(name, [FORCES]) == Done(true) then Remount(name, [OLD_FORCES], 1)
    else Failed
  }

  /** Remounting twice is remounting once. */
  lemma RemountTwice(name: Name, a: Name, b: Name, n: nat)
    requires Valid(a) && Valid(name)
    ensures Remount(name, a, n) == if n <= |name| then Done(a + name[n..]) else Failed
    ensures n <= |name| ==> Remount(Remount(name, a, n).value, b, |a|) == Remount(name, b, n)
  {
    if n <= |name| {
      forall item | item in a + name[n..] ensures ValidItem(item) {}
      assert (a + name[n..])[|a|..] == name[n..];
    }
  }

  lemma MovedHead(name: Name, from: string, to: string)
    requires |name| >= 1 && Valid(name) && ValidItem(to)
    ensures (StartWith(name, [from]) == Done(true)) <==> name[0] == from
    ensures Remount(name, [to], 1) == Done([to] + name[1..])
  {
    assert name[..1] == [name[0]];
    forall item | item in [to] + name[1..] ensures ValidItem(item) {}
  }

  lemma Mounts()
    ensures ValidItem(STATE) && ValidItem(OLD_STATE) && ValidItem(FORCES) && ValidItem(OLD_FORCES)
    ensures STATE != OLD_STATE && STATE != FORCES && STATE != OLD_FORCES
    ensures OLD_STATE != FORCES && OLD_STATE != OLD_FORCES && FORCES != OLD_FORCES
  {
    assert |STATE| == 5 && |OLD_STATE| == 9 && |FORCES| == 6 && |OLD_FORCES| == 10;
  }

  /** `old` is defined exactly on state and forces names and `current` exactly on old ones, of any depth, and
      they undo each other. */
  lemma OldAndCurrent(name: Name)
    requires Valid(name)
    ensures Old(name).Done? <==> name != [] && (name[0] == "state" || name[0] == "forces")
    ensures Old(name).Done? ==> Old(name).value == ["old_" + name[0]] + name[1..] && Current(Old(name).value) == Done(name)
    ensures Current(name).Done? <==> name != [] && (name[0] == "old_state" || name[0] == "old_forces")
    ensures Current(name).Done? ==> Old(Current(name).value) == Done(name)
  {
    Mounts();
    assert OLD_STATE == "old_" + STATE && OLD_FORCES == "old_" + FORCES;
    if name != [] {
      Moves(name);
      forall to | to in [STATE, OLD_STATE, FORCES, OLD_FORCES] ensures Valid([to] + name[1..]) {
        forall item | item in [to] + name[1..] ensures ValidItem(item) {}
      }
      if Old(name).Done? {
        Moves(Old(name).value);
        assert [name[0]] + name[1..] == name;
      }
      if Current(name).Done? {
        Moves(Current(name).value);
        assert [name[0]] + name[1..] == name;
      }
    }
  }

  lemma Moves(name: Name)
    requires Valid(name) && name != []
    ensures Old(name) == if name[0] == STATE then Done([OLD_STATE] + name[1..])
                         else if name[0] == FORCES then Done([OLD_FORCES] + name[1..]) else Failed
    ensures Current(name) == if name[0] == OLD_STATE then Done([STATE] + name[1..])
                             else if name[0] == OLD_FORCES then Done([FORCES] + name[1..]) else Failed
  {
    Mounts();
    MovedHead(name, STATE, OLD_STATE);
    MovedHead(name, FORCES, OLD_FORCES);
    MovedHead(name, OLD_STATE, STATE);
    MovedHead(name, OLD_FORCES, FORCES);
  }

  // ---------------------------------------------------------------------------------------------
  // Qualified names
  // ---------------------------------------------------------------------------------------------

  /** `qualify`: the full name of an item of the sub-axis with this prefix. */
  function Qualify(prefix: Name, name: Name): Name {
    prefix + name
  }

  /** `disqualify`. */
  function Disqualify(prefix: Name, name: Name): Attempt<Name> {
    if StartWith(name, prefix) == Done(true) then Drop(name, |prefix|) else Failed
  }

  /** `disqualify` undoes `qualify`, is defined exactly on the names below the prefix, and is undone there. */
  lemma QualifyAndDisqualify(prefix: Name, name: Name)
    ensures Disqualify(prefix, Qualify(prefix, name)) == Done(name)
    ensures Disqualify(prefix, name).Done? <==> prefix <= name
    ensures Disqualify(prefix, name).Done? ==> Qualify(prefix, Disqualify(prefix, name).value) == name
    ensures StartWith(name, prefix).Failed? <==> |name| < |prefix|
    ensures StartWith(name, prefix) == Done(true) <==> prefix <= name
  {
    assert (prefix + name)[..|prefix|] == prefix && (prefix + name)[|prefix|..] == name;
  }
}
