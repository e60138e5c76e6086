// NodeStatus: a status code with a human-readable text.
module NodeStatuses {
  import opened Wrappers

  /** The five status codes, numbered 0..4 in this order. */
  datatype Code = Pending | Active | Success | Fail | Cancel

  /** The numeric value of a code; merge compares codes by it. */
  function Ord(c: Code): nat
  {
    match c
    case Pending => 0
    case Active => 1
    case Success => 2
    case Fail => 3
    case Cancel => 4
  }

  /** The code with a given numeric value, if there is one. */
  function CodeOf(k: nat): Option<Code>
  {
    if k == 0 then Some(Pending)
    else if k == 1 then Some(Active)
    else if k == 2 then Some(Success)
    else if k == 3 then Some(Fail)
    else if k == 4 then Some(Cancel)
    else None
  }

  lemma OrdRoundTrip(c: Code, k: nat)
    ensures CodeOf(Ord(c)) == Some(c)
    ensures CodeOf(k).Some? <==> k <= 4
    ensures CodeOf(k).Some? ==> Ord(CodeOf(k).value) == k
  {
  }

  /** A code that lets a composite keep going: ACTIVE or PENDING. */
  predicate Unfinished(c: Code)
  {
    c == Active || c == Pending
  }

  datatype NodeStatus = NodeStatus(code: Code, text: string)

  /** The status built with no arguments: PENDING with an empty text. */
  const Default := NodeStatus(Pending, "")

  /** Status equality compares the code only; the text is ignored. */
  predicate Equals(s: NodeStatus, c: Code)
  {
    s.code == c
  }

  lemma EqualsIgnoresText(s: NodeStatus, u: NodeStatus, c: Code)
    requires s.code == u.code
    ensures Equals(s, c) <==> Equals(u, c)
    ensures Equals(s, u.code)
  {
  }

  /** The printable name of a code. */
  function Name(c: Code): string
  {
    match c
    case Pending => "PENDING"
    case Active => "ACTIVE"
    case Success => "SUCCESS"
    case Fail => "FAIL"
    case Cancel => "CANCEL"
  }

  /** The code a printable name stands for, if any. */
  function ParseName(s: string): Option<Code>
  {
    if s == "PENDING" then Some(Pending)
    else if s == "ACTIVE" then Some(Active)
    else if s == "SUCCESS" then Some(Success)
    else if s == "FAIL" then Some(Fail)
    else if s == "CANCEL" then Some(Cancel)
    else None
  }

  lemma NameRoundTrip(c: Code)
    ensures ParseName(Name(c)) == Some(c)
    ensures |Name(c)| > 0
  {
  }

  /** The string form of a status: its code name, a space, then its text. */
  function ToString(s: NodeStatus): string
  {
    Name(s.code) + " " + s.text
  }

  /** The first letter of the printed name already tells the codes apart. */
  lemma NameFirstLetter(c: Code, d: Code)
    requires Name(c)[0] == Name(d)[0]
    ensures c == d
  {
  }

  /** The string form loses nothing: two statuses that print alike are equal. */
  lemma ToStringInjective(s: NodeStatus, u: NodeStatus)
    requires ToString(s) == ToString(u)
    ensures s == u
  {
    assert ToString(s)[0] == Name(s.code)[0];
    assert ToString(u)[0] == Name(u.code)[0];
    NameFirstLetter(s.code, u.code);
    var k := |Name(s.code)| + 1;
    assert ToString(s)[k..] == s.text;
    assert ToString(u)[k..] == u.text;
  }

  function Max(a: nat, b: nat): nat
  {
    if a < b then b else a
  }

  /**
   * merge as written: a strictly higher code first replaces code and text,
   * and then the equal-code branch also fires, so the text is doubled.
   */
  function Merged(s: NodeStatus, c: Code, t: string): (r: NodeStatus)
    ensures Ord(r.code) == Max(Ord(s.code), Ord(c))
    ensures Ord(c) < Ord(s.code) ==> r == s
    ensures c == s.code ==> r == NodeStatus(c, s.text + "; " + t)
    ensures Ord(c) > Ord(s.code) ==> r == NodeStatus(c, t + "; " + t)
  {
    var s1 := if Ord(c) > Ord(s.code) then NodeStatus(c, t) else s;
    if c == s1.code then s1.(text := s1.text + "; " + t) else s1
  }

  /** merge, step by step: the two tests run one after the other on the updated status. */
  method Merge(s: NodeStatus, c: Code, t: string) returns (r: NodeStatus)
    ensures r == Merged(s, c, t)
  {
    r := s;
    if Ord(c) > Ord(r.code) {
      r := NodeStatus(c, t);
    }
    if c == r.code {
      r := r.(text := r.text + "; " + t);
    }
  }

  /** merge as its documentation describes it: a higher code is taken over with its own text. */
  function MergeIntended(s: NodeStatus, c: Code, t: string): (r: NodeStatus)
    ensures Ord(r.code) == Max(Ord(s.code), Ord(c))
    ensures Ord(c) < Ord(s.code) ==> r == s
    ensures c == s.code ==> r == NodeStatus(c, s.text + "; " + t)
    ensures Ord(c) > Ord(s.code) ==> r == NodeStatus(c, t)
  {
    if Ord(c) > Ord(s.code) then NodeStatus(c, t)
    else if c == s.code then s.(text := s.text + "; " + t)
    else s
  }

  /** On a strictly higher code the written merge never yields the documented text. */
  lemma MergeHigherDoublesText(s: NodeStatus, c: Code, t: string)
    requires Ord(c) > Ord(s.code)
    ensures Merged(s, c, t).code == MergeIntended(s, c, t).code
    ensures Merged(s, c, t).text != MergeIntended(s, c, t).text
  {
    assert |Merged(s, c, t).text| == 2 * |t| + 2;
  }

  /** A concrete instance: merging ACTIVE "b" into PENDING "a". */
  lemma MergeDoubledExample()
    ensures Merged(NodeStatus(Pending, "a"), Active, "b") == NodeStatus(Active, "b; b")
    ensures MergeIntended(NodeStatus(Pending, "a"), Active, "b") == NodeStatus(Active, "b")
  {
  }

  /** Both merges agree everywhere except on a strictly higher code. */
  lemma MergeAgreesUnlessHigher(s: NodeStatus, c: Code, t: string)
    requires Ord(c) <= Ord(s.code)
    ensures Merged(s, c, t) == MergeIntended(s, c, t)
  {
  }
}
