/** Resource names: arn:lakefs:service:region:account:resource. */
module Arn {
  import opened Options

  const ALL := "*"
  const NUM_FIELDS := 6

  /** A parsed name; its partition is always lakefs. */
  datatype Name = Name(partition: string, service: string, region: string, accountID: string, resourceID: string)

  predicate ColonFree(s: string) {
    ':' !in s
  }

  /** strings.SplitN with a colon: at most n parts, the last one unsplit. */
  function SplitN(s: string, n: nat): (parts: seq<string>)
    requires n >= 1
    ensures 1 <= |parts| <= n
    decreases |s|
  {
    if n == 1 || ColonFree(s) then [s]
    else
      var i := IndexOfColon(s);
      [s[..i]] + SplitN(s[i + 1..], n - 1)
  }

  function IndexOfColon(s: string): (i: nat)
    requires !ColonFree(s)
    ensures i < |s| && s[i] == ':' && ColonFree(s[..i])
  {
    if s[0] == ':' then 0
    else
      var i := IndexOfColon(s[1..]);
      assert s[..i + 1] == [s[0]] + s[1..][..i];
      i + 1
  }

  lemma {:induction false} IndexOfFirst(a: string, b: string)
    requires ColonFree(a)
    ensures !ColonFree(a + ":" + b) && IndexOfColon(a + ":" + b) == |a|
  {
    var s := a + ":" + b;
    assert s[|a|] == ':';
    if a != "" {
      assert s[1..] == a[1..] + ":" + b;
      IndexOfFirst(a[1..], b);
    }
  }

  /** The text whose parts are given. */
  function Join(parts: seq<string>): string
    requires parts != []
  {
    if |parts| == 1 then parts[0] else parts[0] + ":" + Join(parts[1..])
  }

  ghost predicate ColonFreeParts(parts: seq<string>) {
    forall i :: 0 <= i < |parts| - 1 ==> ColonFree(parts[i])
  }

  /** Splitting undoes joining, and joining undoes splitting. */
  lemma {:induction false} SplitOfJoin(parts: seq<string>, n: nat)
    requires n == |parts| && n >= 1 && ColonFreeParts(parts)
    ensures SplitN(Join(parts), n) == parts
    decreases n
  {
    if n > 1 {
      var head, rest := parts[0], parts[1..];
      SplitOfJoin(rest, n - 1);
      SplitOfHead(head, Join(rest), rest, n);
      assert parts == [head] + rest;
    }
  }

  lemma SplitOfHead(head: string, b: string, rest: seq<string>, n: nat)
    requires ColonFree(head) && n >= 2 && SplitN(b, n - 1) == rest
    ensures SplitN(head + ":" + b, n) == [head] + rest
  {
    SplitStep(head, b, n);
  }

  lemma SplitStep(a: string, b: string, n: nat)
    requires ColonFree(a) && n >= 2
    ensures SplitN(a + ":" + b, n) == [a] + SplitN(b, n - 1)
  {
    IndexOfFirst(a, b);
    var s := a + ":" + b;
    assert s[..|a|] == a && s[|a| + 1..] == b;
  }

  lemma {:induction false} JoinOfSplit(s: string, n: nat)
    requires n >= 1
    ensures Join(SplitN(s, n)) == s && ColonFreeParts(SplitN(s, n))
    decreases |s|
  {
    if n > 1 && !ColonFree(s) {
      var i := IndexOfColon(s);
      JoinOfSplit(s[i + 1..], n - 1);
      var rest := SplitN(s[i + 1..], n - 1);
      assert ([s[..i]] + rest)[1..] == rest;
      assert s == s[..i] + ":" + s[i + 1..];
    }
  }

  /** A name whose text ParseARN accepts. */
  predicate Valid(a: Name) {
    && a.partition == "lakefs" && a.service != "" && a.resourceID != ""
    && ColonFree(a.service) && ColonFree(a.region) && ColonFree(a.accountID)
  }

  function Parts(a: Name): seq<string> {
    ["arn", a.partition, a.service, a.region, a.accountID, a.resourceID]
  }

  function Format(a: Name): string {
    Join(Parts(a))
  }

  /** The fields that ParseARN's loop leaves, or none if one of them is refused. */
  function FromParts(parts: seq<string>): Option<Name> {
    if |parts| == NUM_FIELDS && parts[0] == "arn" && parts[1] == "lakefs" && parts[2] != "" && parts[5] != ""
    then Some(Name(parts[1], parts[2], parts[3], parts[4], parts[5])) else None
  }

  function Parse(s: string): Option<Name> {
    FromParts(SplitN(s, NUM_FIELDS))
  }

  /** Splitting into as many parts yields exactly the parts that join to the text. */
  lemma SplitIff(s: string, parts: seq<string>)
    requires parts != []
    ensures SplitN(s, |parts|) == parts <==> ColonFreeParts(parts) && s == Join(parts)
  {
    JoinOfSplit(s, |parts|);
    if ColonFreeParts(parts) {
      SplitOfJoin(parts, |parts|);
    }
  }

  lemma FromPartsIff(parts: seq<string>, a: Name)
    ensures FromParts(parts) == Some(a) <==>
      parts == Parts(a) && a.partition == "lakefs" && a.service != "" && a.resourceID != ""
  {}

  lemma ValidIff(a: Name)
    ensures Valid(a) <==>
      ColonFreeParts(Parts(a)) && a.partition == "lakefs" && a.service != "" && a.resourceID != ""
  {
    var p := Parts(a);
    assert ColonFreeParts(p) ==> ColonFree(p[2]) && ColonFree(p[3]) && ColonFree(p[4]);
  }

  /** Parsing accepts exactly the texts of valid names, and returns the name written. */
  lemma ParseIff(s: string, a: Name)
    ensures Parse(s) == Some(a) <==> Valid(a) && s == Format(a)
  {
    FromPartsIff(SplitN(s, NUM_FIELDS), a);
    ValidIff(a);
    SplitIff(s, Parts(a));
    assert |Parts(a)| == NUM_FIELDS;
  }

  function WithField(a: Name, index: nat, field: string): Name {
    match index
    case 1 => a.(partition := field)
    case 2 => a.(service := field)
    case 3 => a.(region := field)
    case 4 => a.(accountID := field)
    case 5 => a.(resourceID := field)
    case _ => a
  }

  /** The struct ParseARN fills in. */
  class Arn {
    var partition: string
    var service: string
    var region: string
    var accountID: string
    var resourceID: string

    constructor ()
      ensures partition == service == region == accountID == resourceID == ""
    {
      partition, service, region, accountID, resourceID := "", "", "", "", "";
    }

    function View(): Name
      reads this
    {
      Name(partition, service, region, accountID, resourceID)
    }

    /** arnParseField: sets one field, or refuses its text. */
    method ParseField(field: string, index: nat) returns (ok: bool)
      modifies this
      ensures ok <==> (index == 0 ==> field == "arn") && (index == 1 ==> field == "lakefs")
                      && (index == 2 || index == 5 ==> field != "")
      ensures !ok ==> View() == old(View())
      ensures ok ==> View() == WithField(old(View()), index, field)
    {
      ok := true;
      match index {
        case 0 =>
          ok := field == "arn";
        case 1 =>
          if field != "lakefs" {
            return false;
          }
          partition := field;
        case 2 =>
          if |field| < 1 {
            return false;
          }
          service := field;
        case 3 =>
          region := field;
        case 4 =>
          accountID := field;
        case 5 =>
          if |field| < 1 {
            return false;
          }
          resourceID := field;
        case _ =>
      }
    }
  }

  method ParseARN(s: string) returns (r: Option<Name>)
    ensures r == Parse(s)
    ensures r.Some? ==> Valid(r.value) && s == Format(r.value)
  {
    var parts := SplitN(s, NUM_FIELDS);
    if |parts| < NUM_FIELDS {
      return None;
    }
    var arn := new Arn();
    for i := 0 to |parts|
      invariant i > 0 ==> parts[0] == "arn"
      invariant i > 1 ==> parts[1] == "lakefs"
      invariant i > 2 ==> parts[2] != ""
      invariant i > 5 ==> parts[5] != ""
      invariant arn.View() == Name(if i > 1 then parts[1] else "", if i > 2 then parts[2] else "",
                                   if i > 3 then parts[3] else "", if i > 4 then parts[4] else "",
                                   if i > 5 then parts[5] else "")
    {
      var ok := arn.ParseField(parts[i], i);
      if !ok {
        return None;
      }
    }
    r := Some(arn.View());
    ParseIff(s, r.value);
  }

  /** ArnMatch, with the glob matcher as a parameter. */
  predicate ArnMatch(glob: (string, string) -> bool, src: string, dst: string) {
    src == ALL ||
    match (Parse(src), Parse(dst))
    case (Some(source), Some(dest)) =>
      && source.service == dest.service
      && source.partition == dest.partition
      && source.accountID == dest.accountID
      && glob(source.resourceID, dest.resourceID)
    case _ => false
  }

  /** What a source pattern matches: everything, or well-formed names of the same service
      and account, in any region, whose resource matches the pattern's resource. */
  lemma ArnMatchIff(glob: (string, string) -> bool, src: string, dst: string)
    ensures ArnMatch(glob, src, dst) <==>
      src == ALL || exists a, b :: Valid(a) && Valid(b) && src == Format(a) && dst == Format(b)
                      && a.service == b.service && a.accountID == b.accountID && glob(a.resourceID, b.resourceID)
  {
    if src != ALL {
      if ArnMatch(glob, src, dst) {
        ParseIff(src, Parse(src).value);
        ParseIff(dst, Parse(dst).value);
      }
      if a, b :| Valid(a) && Valid(b) && src == Format(a) && dst == Format(b)
                 && a.service == b.service && a.accountID == b.accountID && glob(a.resourceID, b.resourceID) {
        ParseIff(src, a);
        ParseIff(dst, b);
      }
    }
  }

  /** ParsePolicyResourceAsList; the JSON decoder is a parameter. */
  function ParsePolicyResourceAsList(unmarshal: string -> Option<seq<string>>, resource: string): Option<seq<string>> {
    if resource == "" then None
    else if resource[0] != '[' || resource[|resource| - 1] != ']' then Some([resource])
    else unmarshal(resource)
  }
}
