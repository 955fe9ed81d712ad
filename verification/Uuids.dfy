/** Device ids as text: the canonical form the database returns, and the spellings its uuid
    input accepts for it. */
module Uuids {
  import opened Wrappers

  predicate LowerHex(c: char) {
    '0' <= c <= '9' || 'a' <= c <= 'f'
  }

  predicate Hex(c: char) {
    LowerHex(c) || 'A' <= c <= 'F'
  }

  function Lower(c: char): char {
    if 'A' <= c <= 'F' then c - 'A' + 'a' else c
  }

  function Upper(c: char): char {
    if 'a' <= c <= 'f' then c - 'a' + 'A' else c
  }

  function Lowered(s: string): (r: string)
    ensures |r| == |s| && forall i :: 0 <= i < |s| ==> r[i] == Lower(s[i])
  {
    seq(|s|, i requires 0 <= i < |s| => Lower(s[i]))
  }

  function Uppered(s: string): (r: string)
    ensures |r| == |s| && forall i :: 0 <= i < |s| ==> r[i] == Upper(s[i])
  {
    seq(|s|, i requires 0 <= i < |s| => Upper(s[i]))
  }

  predicate Dash(i: int) {
    i == 8 || i == 13 || i == 18 || i == 23
  }

  /** The output form: 8-4-4-4-12 lower-case digits. */
  predicate Canonical(s: string) {
    |s| == 36 && forall i :: 0 <= i < 36 ==> if Dash(i) then s[i] == '-' else LowerHex(s[i])
  }

  type Uuid = s: string | Canonical(s) witness "00000000-0000-0000-0000-000000000000"

  predicate AllHex(s: string) {
    forall i :: 0 <= i < |s| ==> Hex(s[i])
  }

  predicate AllLowerHex(s: string) {
    forall i :: 0 <= i < |s| ==> LowerHex(s[i])
  }

  datatype Read = Read(digits: string, rest: string)

  /** `groups` groups of four digits in either case, a hyphen allowed after each but the last. */
  function Digits(s: string, groups: nat): (r: Option<Read>)
    ensures r.Some? ==> |r.value.digits| == 4 * groups && AllLowerHex(r.value.digits)
    ensures r.Some? ==> |r.value.rest| + 4 * groups <= |s|
    decreases groups
  {
    if groups == 0 then Some(Read("", s))
    else if |s| < 4 || !AllHex(s[..4]) then None
    else
      match Digits(if groups > 1 && |s| > 4 && s[4] == '-' then s[5..] else s[4..], groups - 1)
      case Some(r) => Some(Read(Lowered(s[..4]) + r.digits, r.rest))
      case None => None
  }

  function Text(d: string): (id: Uuid)
    requires |d| == 32 && AllLowerHex(d)
    ensures id[..8] == d[..8]
  {
    d[..8] + "-" + d[8..12] + "-" + d[12..16] + "-" + d[16..20] + "-" + d[20..]
  }

  predicate Braced(sent: string) {
    sent != "" && sent[0] == '{'
  }

  /** The uuid input: the id a text denotes, if it denotes one. */
  function IdOf(sent: string): (id: Option<Uuid>)
    ensures id.Some? ==> |sent| >= 32
  {
    match Digits(if Braced(sent) then sent[1..] else sent, 8)
    case Some(r) => if r.rest == (if Braced(sent) then "}" else "") then Some(Text(r.digits)) else None
    case None => None
  }

  lemma PrefixIsHex(id: Uuid)
    ensures AllLowerHex(id[..8])
  {
  }

  /** A spelling either starts with the id's own first eight characters, or with something no
      id starts with. */
  lemma SpelledPrefix(sent: string)
    requires IdOf(sent).Some?
    ensures sent[..8] == IdOf(sent).value[..8] <==> AllLowerHex(sent[..8])
  {
    var id := IdOf(sent).value;
    if AllLowerHex(sent[..8]) {
      assert LowerHex(sent[..8][0]) && LowerHex(sent[..8][4]);
      assert !Braced(sent) && sent[4] != '-';
      var d := Digits(sent, 8).value.digits;
      var second := Digits(sent[4..], 7).value.digits;
      assert d[..4] == Lowered(sent[..4]) && d[4..] == second;
      assert second[..4] == Lowered(sent[4..][..4]);
      assert sent[4..][..4] == sent[4..8];
      forall i | 0 <= i < 8 ensures d[i] == sent[i] {
        assert LowerHex(sent[..8][i]);
        assert d[i] == if i < 4 then Lower(sent[i]) else Lower(sent[4..8][i - 4]);
      }
      assert d[..8] == sent[..8];
    } else {
      PrefixIsHex(id);
    }
  }

  predicate SameLetters(s: string, id: Uuid) {
    |s| == 36 && forall i :: 0 <= i < 36 ==> Lower(s[i]) == id[i]
  }

  lemma OneGroup(s: string, id: Uuid, from: nat, groups: nat)
    requires SameLetters(s, id) && 1 <= groups && from + 4 <= 36
    requires forall i :: from <= i < from + 4 ==> !Dash(i)
    requires Dash(from + 4) ==> groups > 1
    ensures var next := if Dash(from + 4) then from + 5 else from + 4;
            Digits(s[from..], groups) == match Digits(s[next..], groups - 1)
                                         case Some(r) => Some(Read(id[from..from + 4] + r.digits, r.rest))
                                         case None => None
  {
    var tail := s[from..];
    forall i | 0 <= i < 4 ensures Hex(tail[..4][i]) && Lower(tail[..4][i]) == id[from + i] {
      assert tail[..4][i] == s[from + i] && !Dash(from + i);
    }
    assert Lowered(tail[..4]) == id[from..from + 4];
    if from + 4 < 36 {
      assert tail[4] == s[from + 4];
      assert Lower(s[from + 4]) == id[from + 4];
      assert tail[4] == '-' <==> Dash(from + 4);
    }
    assert tail[4..] == s[from + 4..];
    if Dash(from + 4) {
      assert tail[5..] == s[from + 5..];
    }
  }

  /** The digits of the last group of twelve, and of the three groups before it. */
  lemma LastTwelve(s: string, id: Uuid)
    requires SameLetters(s, id)
    ensures Digits(s[24..], 3) == Some(Read(id[24..36], ""))
  {
    assert s[36..] == "" && Digits(s[36..], 0) == Some(Read("", ""));
    OneGroup(s, id, 32, 1);
    assert id[32..36] + "" == id[32..36];
    OneGroup(s, id, 28, 2);
    assert id[28..32] + id[32..36] == id[28..36];
    OneGroup(s, id, 24, 3);
    assert id[24..28] + id[28..36] == id[24..36];
  }

  lemma LastSixteen(s: string, id: Uuid)
    requires SameLetters(s, id)
    ensures Digits(s[19..], 4) == Some(Read(id[19..23] + id[24..36], ""))
  {
    LastTwelve(s, id);
    OneGroup(s, id, 19, 4);
  }

  lemma LastTwenty(s: string, id: Uuid)
    requires SameLetters(s, id)
    ensures Digits(s[14..], 5) == Some(Read(id[14..18] + (id[19..23] + id[24..36]), ""))
  {
    LastSixteen(s, id);
    OneGroup(s, id, 14, 5);
  }

  lemma LastTwentyFour(s: string, id: Uuid)
    requires SameLetters(s, id)
    ensures Digits(s[9..], 6) == Some(Read(id[9..13] + (id[14..18] + (id[19..23] + id[24..36])), ""))
  {
    LastTwenty(s, id);
    OneGroup(s, id, 9, 6);
  }

  function DigitsOf(id: Uuid): (d: string)
    ensures |d| == 32
  {
    id[0..4] + (id[4..8] + (id[9..13] + (id[14..18] + (id[19..23] + id[24..36]))))
  }

  lemma DigitsOfAt(id: Uuid, i: nat)
    requires i < 32
    ensures DigitsOf(id)[i] == id[if i < 8 then i else if i < 12 then i + 1 else if i < 16 then i + 2
                                  else if i < 20 then i + 3 else i + 4]
    ensures LowerHex(DigitsOf(id)[i])
  {
  }

  lemma TextOfDigits(id: Uuid)
    ensures AllLowerHex(DigitsOf(id)) && Text(DigitsOf(id)) == id
  {
    var d := DigitsOf(id);
    forall i | 0 <= i < 32 ensures LowerHex(d[i]) {
      DigitsOfAt(id, i);
    }
    forall i | 0 <= i < 36 ensures Text(d)[i] == id[i] {
      if !Dash(i) {
        var dashes := if i < 8 then 0 else if i < 13 then 1 else if i < 18 then 2 else if i < 23 then 3 else 4;
        DigitsOfAt(id, i - dashes);
      }
    }
  }

  /** The canonical text, in upper, lower or mixed case, denotes its id. */
  lemma CaseDoesNotMatter(s: string, id: Uuid)
    requires SameLetters(s, id)
    ensures IdOf(s) == Some(id)
  {
    LastTwentyFour(s, id);
    OneGroup(s, id, 4, 7);
    OneGroup(s, id, 0, 8);
    assert s[0..] == s && Lower(s[0]) == id[0];
    assert Digits(s, 8) == Some(Read(DigitsOf(id), ""));
    TextOfDigits(id);
  }

  /** An upper-case spelling denotes the id, and starts differently exactly when the first
      eight characters hold a letter. */
  lemma UpperCaseSpelling(id: Uuid)
    ensures IdOf(Uppered(id)) == Some(id)
    ensures Uppered(id)[..8] == id[..8] <==> forall i :: 0 <= i < 8 ==> '0' <= id[i] <= '9'
  {
    var s := Uppered(id);
    forall i | 0 <= i < 36 ensures Lower(s[i]) == id[i] {
      assert if Dash(i) then id[i] == '-' else LowerHex(id[i]);
    }
    CaseDoesNotMatter(s, id);
    if s[..8] == id[..8] {
      forall i | 0 <= i < 8 ensures '0' <= id[i] <= '9' {
        assert s[..8][i] == id[..8][i] && LowerHex(id[i]);
      }
    }
  }

  lemma OwnSpelling(id: Uuid)
    ensures IdOf(id) == Some(id)
  {
    forall i | 0 <= i < 36 ensures Lower(id[i]) == id[i] {
      assert if Dash(i) then id[i] == '-' else LowerHex(id[i]);
    }
    CaseDoesNotMatter(id, id);
  }
}
