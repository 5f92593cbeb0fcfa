/** pkg/git/branch.go: parsing the lines of `git branch -vv` into branch details, and the
    branch lists built from git's output. The output lines are parameters: running git is
    not part of this model. */
module GitBranch {
  import opened Wrappers
  import opened GoStrings
  import opened Errors
  import Seqs

  const StatusSync: string := "sync"
  const StatusGone: string := "deleted"
  const StatusAhead: string := "ahead"
  const StatusBehind: string := "behind"
  const StatusConflict: string := "conflict"
  const StatusDetached: string := "detached"
  const StatusNone: string := "none"

  /** What a run-time index-out-of-range panic reports. */
  const IndexPanic: string := "index out of range [0] with length 0"

  datatype BranchDetail = BranchDetail(
    name: string,
    remoteStatus: string,
    current: bool,
    isRemote: bool,
    remote: string,
    commit: string,
    commitMsg: string)

  /** trimPrefix: drops the prefix when present, then the surrounding white space. */
  function TrimPrefixSpace(s: string, prefix: string): string {
    TrimSpace(TrimPrefix(s, prefix))
  }

  /** nextField. A string with one field is returned whole; otherwise the first field and
      the other fields joined by single spaces. A blank string has no fields[0]: the panic is
      None. */
  function NextField(s: string): (r: Option<(string, string)>)
    ensures r.None? <==> Fields(s) == []
    ensures |Fields(s)| == 1 ==> r == Some((s, ""))
    ensures |Fields(s)| > 1 ==> IsField(r.value.0, IsSpace) && r.value.0 + " " + r.value.1 == Join(Fields(s), " ")
  {
    var fields := Fields(s);
    if |fields| == 1 then Some((s, ""))
    else if fields == [] then None
    else Some((fields[0], Join(fields[1..], " ")))
  }

  /** The index of the first field ending with `end`, or the number of fields. */
  function FirstEnding(fields: seq<string>, end: string, i: nat): (r: nat)
    requires i <= |fields|
    ensures i <= r <= |fields|
    ensures forall k :: i <= k < r ==> !HasSuffix(fields[k], end)
    ensures r < |fields| ==> HasSuffix(fields[r], end)
    decreases |fields| - i
  {
    if i == |fields| || HasSuffix(fields[i], end) then i else FirstEnding(fields, end, i + 1)
  }

  /** nextRangeField's result: the fields up to and including the first one that ends with
      `end`, and the fields after it. When no field ends with `end`, the element is every
      field and the remainder is every field but the first. */
  function RangeSplit(s: string, end: string): (string, string) {
    var fields := Fields(s);
    var i := FirstEnding(fields, end, 0);
    if i < |fields| then (Join(fields[..i + 1], " "), Join(fields[i + 1..], " "))
    else (Join(fields, " "), if |fields| > 1 then Join(fields[1..], " ") else "")
  }

  /** nextRangeField: collects fields until one ends with `end`. */
  method NextRangeField(s: string, end: string) returns (ele: string, remain: string)
    ensures (ele, remain) == RangeSplit(s, end)
  {
    var fields := Fields(s);
    var fits: seq<string> := [];
    var fitEndIdx := 0;
    var idx := 0;
    while idx < |fields|
      invariant idx <= |fields| && fits == fields[..idx] && fitEndIdx == 0
      invariant FirstEnding(fields, end, 0) == FirstEnding(fields, end, idx)
    {
      fits := fits + [fields[idx]];
      if HasSuffix(fields[idx], end) {
        fitEndIdx := idx;
        break;
      }
      idx := idx + 1;
    }
    remain := "";
    if fitEndIdx < |fields| - 1 {
      remain := Join(fields[fitEndIdx + 1..], " ");
    }
    ele := Join(fits, " ");
    if idx == |fields| {
      assert fits == fields;
    } else {
      assert fits == fields[..idx + 1] && FirstEnding(fields, end, idx) == idx;
      if idx == |fields| - 1 {
        assert fields[idx + 1..] == [];
      }
    }
  }

  /** The status a bracketed description gives: "gone" wins, then ahead and behind
      together, then each alone; otherwise in sync. */
  function StatusOf(desc: string): (r: string)
    ensures r == StatusGone <==> Contains(desc, "gone")
    ensures r == StatusConflict <==> !Contains(desc, "gone") && Contains(desc, "ahead") && Contains(desc, "behind")
    ensures r == StatusAhead <==> !Contains(desc, "gone") && Contains(desc, "ahead") && !Contains(desc, "behind")
    ensures r == StatusBehind <==> !Contains(desc, "gone") && !Contains(desc, "ahead") && Contains(desc, "behind")
    ensures r == StatusSync <==> !Contains(desc, "gone") && !Contains(desc, "ahead") && !Contains(desc, "behind")
  {
    var ahead := Contains(desc, "ahead");
    var behind := Contains(desc, "behind");
    if Contains(desc, "gone") then StatusGone
    else if ahead && behind then StatusConflict
    else if ahead then StatusAhead
    else if behind then StatusBehind
    else StatusSync
  }

  /** The error of a malformed line: it quotes the raw line. */
  function InvalidLine(raw: string, msg: string): (r: Error)
    ensures r.Plain? && HasPrefix(r.msg, "invalid branch line " + Quote(raw) + ", please check your git command: ")
  {
    var head := "invalid branch line " + Quote(raw) + ", please check your git command: ";
    assert (head + msg)[..|head|] == head;
    Plain(head + msg)
  }

  /** The line once a leading "*" and the white space after it are gone. */
  function Unstarred(line: string): string {
    if HasPrefix(line, "*") then TrimPrefixSpace(line, "*") else line
  }

  /** The name and the rest of an unstarred line: a detached head's parenthesised name runs
      up to its ")", any other name is the first field. */
  function NameSplit(l1: string): Option<(string, string)> {
    if HasPrefix(l1, "(") then Some(RangeSplit(l1, ")")) else NextField(l1)
  }

  /** The upstream description between the brackets. */
  function UpstreamDesc(l: string): string {
    TrimSuffix(TrimPrefixSpace(RangeSplit(l, "]").0, "["), "]")
  }

  /** The errors a line can give: the panic of a line without enough fields, or one of
      three complaints that quote the raw line. */
  predicate ParseError(raw: string, e: Error) {
    e == Panic(IndexPanic) || e == InvalidLine(raw, "name is empty") ||
    e == InvalidLine(raw, "remote desc is empty") || e == InvalidLine(raw, "remote name is empty")
  }

  /** ParseBranchDetail as a value. A "*" marks the current branch; a name in parentheses is
      a detached head; the branch has a non-empty name; without an upstream description
      its status is "detached" or "none", and with one it has a remote name and one of the
      five tracking statuses. */
  function ParseBranch(line: string): (r: Result<BranchDetail, Error>)
    ensures r.Ok? ==> r.value.current == HasPrefix(line, "*")
    ensures r.Ok? ==> r.value.name != ""
    ensures r.Ok? && !r.value.isRemote ==>
      r.value.remote == "" && r.value.remoteStatus == (if HasPrefix(Unstarred(line), "(") then StatusDetached else StatusNone)
    ensures r.Ok? && r.value.isRemote ==>
      r.value.remote != "" && r.value.remoteStatus in {StatusGone, StatusConflict, StatusAhead, StatusBehind, StatusSync}
    ensures r.Err? ==> ParseError(line, r.error)
  {
    var l1 := Unstarred(line);
    var detached := HasPrefix(l1, "(");
    var nameSplit := NameSplit(l1);
    if nameSplit.None? then Err(Panic(IndexPanic))
    else if nameSplit.value.0 == "" then Err(InvalidLine(line, "name is empty"))
    else ParseAfterName(line, HasPrefix(line, "*"), nameSplit.value.0, detached, nameSplit.value.1)
  }

  /** Where ParseBranch takes each field from: a line without a name field panics; the name
      is the unstarred line's first field (a detached head's parenthesised run) and the
      commit the next field; the rest is ParseAfterName's. */
  lemma ParseBranchFields(line: string)
    ensures NameSplit(Unstarred(line)).None? ==> ParseBranch(line) == Err(Panic(IndexPanic))
    ensures var r := ParseBranch(line);
      r.Ok? ==> NameSplit(Unstarred(line)).Some? && r.value.name == NameSplit(Unstarred(line)).value.0
    ensures var r := ParseBranch(line);
      r.Ok? ==>
        NameSplit(Unstarred(line)).Some? && NextField(NameSplit(Unstarred(line)).value.1).Some?
        && r.value.commit == NextField(NameSplit(Unstarred(line)).value.1).value.0
    ensures var ns := NameSplit(Unstarred(line));
      ns.Some? && ns.value.0 != "" ==>
        ParseBranch(line) == ParseAfterName(line, HasPrefix(line, "*"), ns.value.0, HasPrefix(Unstarred(line), "("), ns.value.1)
  {
  }

  /** The rest of the line after the name: the commit, then an optional bracketed upstream
      description, then the commit message. */
  function ParseAfterName(raw: string, current: bool, name: string, detached: bool, l: string): (r: Result<BranchDetail, Error>)
    requires name != ""
    ensures r.Ok? ==> r.value.current == current && r.value.name == name
    ensures r.Ok? && !r.value.isRemote ==>
      r.value.remote == "" && r.value.remoteStatus == (if detached then StatusDetached else StatusNone)
    ensures r.Ok? && r.value.isRemote ==>
      r.value.remote != "" && r.value.remoteStatus in {StatusGone, StatusConflict, StatusAhead, StatusBehind, StatusSync}
    ensures r.Err? ==> ParseError(raw, r.error)
  {
    var commitSplit := NextField(l);
    if commitSplit.None? then Err(Panic(IndexPanic))
    else
      var l3 := commitSplit.value.1;
      if HasPrefix(l3, "[") then ParseUpstream(raw, current, name, commitSplit.value.0, l3)
      else Ok(BranchDetail(name, if detached then StatusDetached else StatusNone, current, false, "", commitSplit.value.0, l3))
  }

  /** The bracketed upstream description: its first field, with a trailing ":" removed, is
      the remote branch, and the rest of it decides the status. */
  function ParseUpstream(raw: string, current: bool, name: string, commit: string, l: string): (r: Result<BranchDetail, Error>)
    ensures r.Ok? ==> r.value.current == current && r.value.name == name && r.value.commit == commit
    ensures r.Ok? ==> r.value.isRemote && r.value.remote != ""
    ensures r.Ok? ==>
      r.value.remoteStatus in {StatusGone, StatusConflict, StatusAhead, StatusBehind, StatusSync}
    ensures r.Err? ==> ParseError(raw, r.error)
  {
    var range := RangeSplit(l, "]");
    var desc := UpstreamDesc(l);
    if desc == "" then Err(InvalidLine(raw, "remote desc is empty"))
    else
      var remoteSplit := NextField(desc);
      if remoteSplit.None? then Err(Panic(IndexPanic))
      else
        var remoteName := TrimSuffix(remoteSplit.value.0, ":");
        if remoteName == "" then Err(InvalidLine(raw, "remote name is empty"))
        else Ok(BranchDetail(name, StatusOf(remoteSplit.value.1), current, true, remoteName, commit, range.1))
  }

  /** Where ParseAfterName takes each field from: no commit field is the index panic; the
      commit is the next field; the branch tracks an upstream exactly when the rest starts
      with "["; the message is the rest, or what follows the bracket. */
  lemma AfterNameFields(raw: string, current: bool, name: string, detached: bool, l: string)
    requires name != ""
    ensures NextField(l).None? ==> ParseAfterName(raw, current, name, detached, l) == Err(Panic(IndexPanic))
    ensures var r := ParseAfterName(raw, current, name, detached, l);
      r.Ok? ==> NextField(l).Some? && r.value.commit == NextField(l).value.0
    ensures var r := ParseAfterName(raw, current, name, detached, l);
      r.Ok? ==> NextField(l).Some? && (r.value.isRemote <==> HasPrefix(NextField(l).value.1, "["))
    ensures var r := ParseAfterName(raw, current, name, detached, l);
      r.Ok? && !r.value.isRemote ==> NextField(l).Some? && r.value.commitMsg == NextField(l).value.1
    ensures var r := ParseAfterName(raw, current, name, detached, l);
      r.Ok? && r.value.isRemote ==> NextField(l).Some? && r.value.commitMsg == RangeSplit(NextField(l).value.1, "]").1
  {
    var cs := NextField(l);
    if cs.Some? {
      var (c, t) := cs.value;
      if HasPrefix(t, "[") {
        AfterNameUpstream(raw, current, name, detached, l, c, t);
        UpstreamFields(raw, current, name, c, t);
      } else {
        AfterNamePlain(raw, current, name, detached, l, c, t);
      }
    }
  }

  /** Where ParseUpstream takes each field from: it fails exactly when the description is
      empty, has no field, or its first field is only ":"; the remote is that field without
      its ":", the status is StatusOf the rest of the description, the message is what
      follows the bracket. */
  lemma UpstreamFields(raw: string, current: bool, name: string, commit: string, l: string)
    ensures ParseUpstream(raw, current, name, commit, l).Err? <==>
      UpstreamDesc(l) == "" || NextField(UpstreamDesc(l)).None?
      || TrimSuffix(NextField(UpstreamDesc(l)).value.0, ":") == ""
    ensures var r := ParseUpstream(raw, current, name, commit, l);
      r.Ok? ==>
        && NextField(UpstreamDesc(l)).Some?
        && r.value.remote == TrimSuffix(NextField(UpstreamDesc(l)).value.0, ":")
        && r.value.remoteStatus == StatusOf(NextField(UpstreamDesc(l)).value.1)
        && r.value.commitMsg == RangeSplit(l, "]").1
  {
  }

  /** ParseAfterName on a commit followed by an upstream bracket is ParseUpstream's. */
  lemma AfterNameUpstream(raw: string, current: bool, name: string, detached: bool, l: string, c: string, t: string)
    requires name != "" && NextField(l) == Some((c, t)) && HasPrefix(t, "[")
    ensures ParseAfterName(raw, current, name, detached, l) == ParseUpstream(raw, current, name, c, t)
  {
  }

  /** ParseAfterName on a commit followed by a message. */
  lemma AfterNamePlain(raw: string, current: bool, name: string, detached: bool, l: string, c: string, t: string)
    requires name != "" && NextField(l) == Some((c, t)) && !HasPrefix(t, "[")
    ensures ParseAfterName(raw, current, name, detached, l)
      == Ok(BranchDetail(name, if detached then StatusDetached else StatusNone, current, false, "", c, t))
  {
  }

  /** ParseUpstream on a description "<remote>: <rest>". */
  lemma UpstreamOk(raw: string, current: bool, name: string, commit: string, l: string, x: string, rest: string)
    requires UpstreamDesc(l) != "" && NextField(UpstreamDesc(l)) == Some((x, rest)) && TrimSuffix(x, ":") != ""
    ensures ParseUpstream(raw, current, name, commit, l)
      == Ok(BranchDetail(name, StatusOf(rest), current, true, TrimSuffix(x, ":"), commit, RangeSplit(l, "]").1))
  {
  }

  /** ParseBranchDetail: takes the line apart field by field. */
  method ParseBranchDetail(line: string) returns (r: Result<BranchDetail, Error>)
    ensures r == ParseBranch(line)
  {
    var raw := line;
    var l := line;
    var current := false;
    if HasPrefix(l, "*") {
      current := true;
      l := TrimPrefixSpace(l, "*");
    }
    var name: string;
    var status := "";
    if HasPrefix(l, "(") {
      name, l := NextRangeField(l, ")");
      status := StatusDetached;
    } else {
      var next := NextField(l);
      if next.None? {
        return Err(Panic(IndexPanic));
      }
      name, l := next.value.0, next.value.1;
    }
    if name == "" {
      return Err(InvalidLine(raw, "name is empty"));
    }
    var next := NextField(l);
    if next.None? {
      return Err(Panic(IndexPanic));
    }
    var commit := next.value.0;
    l := next.value.1;
    var isRemote := false;
    var remote := "";
    if HasPrefix(l, "[") {
      var remoteDesc;
      remoteDesc, l := NextRangeField(l, "]");
      remoteDesc := TrimPrefixSpace(remoteDesc, "[");
      remoteDesc := TrimSuffix(remoteDesc, "]");
      if remoteDesc == "" {
        return Err(InvalidLine(raw, "remote desc is empty"));
      }
      var split := NextField(remoteDesc);
      if split.None? {
        return Err(Panic(IndexPanic));
      }
      var remoteName := TrimSuffix(split.value.0, ":");
      if remoteName == "" {
        return Err(InvalidLine(raw, "remote name is empty"));
      }
      status := StatusOf(split.value.1);
      remote := remoteName;
      isRemote := true;
    } else if status == "" {
      status := StatusNone;
    }
    return Ok(BranchDetail(name, status, current, isRemote, remote, commit, l));
  }

  /** Words some text is made of: each a field, none holding a "]". */
  predicate Words(ws: seq<string>) {
    forall k :: 0 <= k < |ws| ==> IsField(ws[k], IsSpace) && ']' !in ws[k]
  }

  /** The words of a description with the closing "]" attached to the last one. */
  function Closed(ds: seq<string>): seq<string>
    requires |ds| >= 1
  {
    ds[..|ds| - 1] + [ds[|ds| - 1] + "]"]
  }

  lemma ClosedWords(ds: seq<string>)
    requires |ds| >= 1 && Words(ds)
    ensures |Closed(ds)| == |ds| && AllFields(Closed(ds))
    ensures forall k :: 0 <= k < |ds| - 1 ==> !HasSuffix(Closed(ds)[k], "]")
    ensures HasSuffix(Closed(ds)[|ds| - 1], "]")
    ensures Join(Closed(ds), " ") == Join(ds, " ") + "]"
  {
    JoinExtendLast(ds, "]", " ");
    var last := ds[|ds| - 1] + "]";
    assert Closed(ds)[|ds| - 1] == last && last[|last| - 1..] == "]";
    forall k | 0 <= k < |ds| - 1
      ensures !HasSuffix(Closed(ds)[k], "]")
    {
      var w := ds[k];
      assert Closed(ds)[k] == w;
      assert w[|w| - 1] != ']';
      assert w[|w| - 1..][0] == w[|w| - 1];
    }
  }

  /** NextField of words joined by single spaces: the first word and the rest. */
  lemma NextFieldOfJoin(ws: seq<string>)
    requires |ws| >= 2 && AllFields(ws)
    ensures NextField(Join(ws, " ")) == Some((ws[0], Join(ws[1..], " ")))
  {
    FieldsOfJoin(ws);
  }

  /** The first field ending with "]" is the one that closes the bracket. */
  lemma ClosingField(head: string, ds: seq<string>, ms: seq<string>)
    requires |ds| >= 1 && Words(ds) && !HasSuffix(head, "]")
    ensures FirstEnding([head] + Closed(ds) + ms, "]", 0) == |ds|
  {
    ClosedWords(ds);
    var fields := [head] + Closed(ds) + ms;
    assert fields[|ds|] == Closed(ds)[|ds| - 1];
    assert forall k :: 0 < k < |ds| ==> fields[k] == Closed(ds)[k - 1];
    assert fields[0] == head;
  }

  /** The bracket's fields, "[<upstream>:" then the closed description. */
  function Bracket(b: string, ds: seq<string>): seq<string>
    requires |ds| >= 1
  {
    ["[" + b + ":"] + Closed(ds)
  }

  lemma BracketFields(b: string, ds: seq<string>, ms: seq<string>)
    requires IsField(b, IsSpace) && |ds| >= 1 && Words(ds) && |ms| >= 1 && AllFields(ms)
    ensures AllFields(Bracket(b, ds)) && AllFields(Bracket(b, ds) + ms)
  {
    ClosedWords(ds);
    FieldConcat("[", b);
    FieldConcat("[" + b, ":");
    AllFieldsAppend(["[" + b + ":"], Closed(ds));
    AllFieldsAppend(Bracket(b, ds), ms);
  }

  lemma BracketJoin(b: string, ds: seq<string>)
    requires |ds| >= 1 && Words(ds)
    ensures Join(Bracket(b, ds), " ") == "[" + (b + ":" + " " + (Join(ds, " ") + "]"))
  {
    ClosedWords(ds);
    JoinCons("[" + b + ":", Closed(ds), " ");
    var x := Join(Closed(ds), " ");
    Seqs.AppendAssoc("[" + b + ":", " ", x);
    Seqs.AppendAssoc("[" + b, ":", " " + x);
    Seqs.AppendAssoc("[", b, ":" + (" " + x));
    Seqs.AppendAssoc(b, ":", " " + x);
    Seqs.AppendAssoc(b + ":", " ", x);
  }

  /** The bracket splits off from the message words after it. */
  lemma BracketRange(b: string, ds: seq<string>, ms: seq<string>)
    requires IsField(b, IsSpace) && |ds| >= 1 && Words(ds) && |ms| >= 1 && AllFields(ms)
    ensures RangeSplit(Join(Bracket(b, ds) + ms, " "), "]") == (Join(Bracket(b, ds), " "), Join(ms, " "))
  {
    BracketFields(b, ds, ms);
    var tail := Bracket(b, ds) + ms;
    FieldsOfJoin(tail);
    assert !HasSuffix("[" + b + ":", "]") by {
      var h := "[" + b + ":";
      assert h[|h| - 1..][0] == ':';
    }
    ClosingField("[" + b + ":", ds, ms);
    assert tail == ["[" + b + ":"] + Closed(ds) + ms;
    assert tail[..|ds| + 1] == Bracket(b, ds) && tail[|ds| + 1..] == ms;
  }

  /** Between the brackets: "<upstream>: <status words>". */
  lemma BracketDesc(b: string, ds: seq<string>, ms: seq<string>)
    requires IsField(b, IsSpace) && |ds| >= 1 && Words(ds) && |ms| >= 1 && AllFields(ms)
    ensures UpstreamDesc(Join(Bracket(b, ds) + ms, " ")) == b + ":" + " " + Join(ds, " ")
  {
    var desc := b + ":" + " " + Join(ds, " ");
    var j := b + ":" + " " + (Join(ds, " ") + "]");
    BracketRange(b, ds, ms);
    BracketJoin(b, ds);
    ClosedDesc(b, Join(ds, " "));
    DescOfRange(Join(Bracket(b, ds) + ms, " "), j, desc);
  }

  /** The text of "<b>: <d>]" does not start or end with white space and ends with "]". */
  lemma ClosedDesc(b: string, d: string)
    requires IsField(b, IsSpace)
    ensures var j := b + ":" + " " + (d + "]");
      Unpadded(j) && j == b + ":" + " " + d + "]"
  {
    var j := b + ":" + " " + (d + "]");
    Seqs.AppendAssoc(b + ":" + " ", d, "]");
    assert j[0] == b[0] && j[|j| - 1] == ']';
  }

  /** UpstreamDesc of a line whose first "]"-range is "[" + j, j unpadded and "]"-closed. */
  lemma DescOfRange(l: string, j: string, desc: string)
    requires RangeSplit(l, "]").0 == "[" + j && Unpadded(j) && j == desc + "]"
    ensures UpstreamDesc(l) == desc
  {
    TrimSpaceUnpadded(j);
    assert TrimPrefix("[" + j, "[") == j;
    assert j[|j| - 1..] == "]";
  }
  /** The bracketed part of a tracking line: the upstream is the remote, the status words
      give the status and the words after the bracket are the message. */
  lemma UpstreamOfBracket(raw: string, current: bool, n: string, c: string, b: string, ds: seq<string>, ms: seq<string>)
    requires IsField(b, IsSpace) && |ds| >= 1 && Words(ds) && |ms| >= 1 && AllFields(ms)
    ensures ParseUpstream(raw, current, n, c, Join(Bracket(b, ds) + ms, " "))
      == Ok(BranchDetail(n, StatusOf(Join(ds, " ")), current, true, b, c, Join(ms, " ")))
  {
    var l := Join(Bracket(b, ds) + ms, " ");
    BracketRange(b, ds, ms);
    BracketDesc(b, ds, ms);
    DescSplit(b, ds);
    UpstreamOk(raw, current, n, c, l, b + ":", Join(ds, " "));
  }

  /** The description's first field is the upstream with its ":". */
  lemma DescSplit(b: string, ds: seq<string>)
    requires IsField(b, IsSpace) && |ds| >= 1 && Words(ds)
    ensures b + ":" + " " + Join(ds, " ") != ""
    ensures NextField(b + ":" + " " + Join(ds, " ")) == Some((b + ":", Join(ds, " ")))
    ensures TrimSuffix(b + ":", ":") == b && b != ""
  {
    ColonField(b);
    WordsAreFields(ds);
    FieldThenJoin(b + ":", ds);
  }

  /** A remote name with its ":" is still one field, and TrimSuffix takes the ":" off. */
  lemma ColonField(b: string)
    requires IsField(b, IsSpace)
    ensures IsField(b + ":", IsSpace) && TrimSuffix(b + ":", ":") == b
  {
    var h := b + ":";
    FieldConcat(b, ":");
    assert h[|h| - 1..] == ":" && h[..|h| - 1] == b;
  }

  lemma WordsAreFields(ds: seq<string>)
    requires Words(ds)
    ensures AllFields(ds)
  {
  }

  /** A field followed by a space and a join of fields splits at that space. */
  lemma FieldThenJoin(h: string, ds: seq<string>)
    requires IsField(h, IsSpace) && |ds| >= 1 && AllFields(ds)
    ensures NextField(h + " " + Join(ds, " ")) == Some((h, Join(ds, " ")))
  {
    var words := [h] + ds;
    JoinCons(h, ds, " ");
    AllFieldsAppend([h], ds);
    NextFieldOfJoin(words);
    assert words[1..] == ds;
  }

  /** A current branch tracking an upstream, as `git branch -vv` prints it:
      "* <name> <commit> [<upstream>: <status words>] <message words>". Every part comes back:
      the upstream as the remote, the status words deciding the status, the message words
      single-spaced. */
  lemma ParseTrackingLine(n: string, c: string, b: string, ds: seq<string>, ms: seq<string>)
    requires IsField(n, IsSpace) && n[0] != '(' && IsField(c, IsSpace) && IsField(b, IsSpace)
    requires |ds| >= 1 && Words(ds) && |ms| >= 1 && AllFields(ms)
    ensures ParseBranch("* " + n + " " + c + " [" + b + ": " + Join(ds, " ") + "] " + Join(ms, " "))
      == Ok(BranchDetail(n, StatusOf(Join(ds, " ")), true, true, b, c, Join(ms, " ")))
  {
    var line := "* " + n + " " + c + " [" + b + ": " + Join(ds, " ") + "] " + Join(ms, " ");
    var tail := Bracket(b, ds) + ms;
    TrackingSplit(n, c, b, ds, ms);
    ParseBranchFields(line);
    AfterNameUpstream(line, true, n, false, Join([c] + tail, " "), c, Join(tail, " "));
    UpstreamOfBracket(line, true, n, c, b, ds, ms);
  }

  /** A tracking line's star, name, commit and bracket. */
  lemma TrackingSplit(n: string, c: string, b: string, ds: seq<string>, ms: seq<string>)
    requires IsField(n, IsSpace) && n[0] != '(' && IsField(c, IsSpace) && IsField(b, IsSpace)
    requires |ds| >= 1 && Words(ds) && |ms| >= 1 && AllFields(ms)
    ensures var line := "* " + n + " " + c + " [" + b + ": " + Join(ds, " ") + "] " + Join(ms, " ");
      var tail := Bracket(b, ds) + ms;
      && HasPrefix(line, "*")
      && NameSplit(Unstarred(line)) == Some((n, Join([c] + tail, " ")))
      && !HasPrefix(Unstarred(line), "(")
      && NextField(Join([c] + tail, " ")) == Some((c, Join(tail, " ")))
      && HasPrefix(Join(tail, " "), "[")
  {
    var line := "* " + n + " " + c + " [" + b + ": " + Join(ds, " ") + "] " + Join(ms, " ");
    var tail := Bracket(b, ds) + ms;
    var rest := [c] + tail;
    var f := Join([n] + rest, " ");
    TrackingFields(n, c, b, ds, ms);
    assert line == "* " + f by {
      TrackingText(n, c, b, ds, ms);
      assert [n, c] + tail == [n] + rest;
    }
    assert HasPrefix(line, "*") && Unstarred(line) == f && f[0] == n[0] by {
      JoinFieldsUnpadded([n] + rest);
      StarredLine(f);
    }
    HeadSplit(n, rest);
    HeadSplit(c, tail);
    assert HasPrefix(Join(tail, " "), "[") by {
      JoinFieldsUnpadded(tail);
    }
  }

  /** A join of fields splits at its first separator. */
  lemma HeadSplit(w: string, ws: seq<string>)
    requires |ws| >= 1 && AllFields([w] + ws)
    ensures NextField(Join([w] + ws, " ")) == Some((w, Join(ws, " ")))
  {
    NextFieldOfJoin([w] + ws);
    assert ([w] + ws)[1..] == ws;
  }

  /** A starred line: the "*" and the space after it go. */
  lemma StarredLine(f: string)
    requires f != "" && Unpadded(f)
    ensures HasPrefix("* " + f, "*") && Unstarred("* " + f) == f
  {
    TrimLeadingSpace(f);
    Seqs.AppendAssoc("*", " ", f);
    assert "* " == "*" + " ";
  }

  lemma TrackingFields(n: string, c: string, b: string, ds: seq<string>, ms: seq<string>)
    requires IsField(n, IsSpace) && IsField(c, IsSpace) && IsField(b, IsSpace)
    requires |ds| >= 1 && Words(ds) && |ms| >= 1 && AllFields(ms)
    ensures AllFields(Bracket(b, ds) + ms)
    ensures AllFields([c] + (Bracket(b, ds) + ms)) && AllFields([n] + ([c] + (Bracket(b, ds) + ms)))
  {
    BracketFields(b, ds, ms);
    AllFieldsAppend([c], Bracket(b, ds) + ms);
    AllFieldsAppend([n], [c] + (Bracket(b, ds) + ms));
  }

  /** The text of a tracking line is its fields joined by single spaces. */
  lemma TrackingText(n: string, c: string, b: string, ds: seq<string>, ms: seq<string>)
    requires |ds| >= 1 && Words(ds) && |ms| >= 1
    ensures "* " + n + " " + c + " [" + b + ": " + Join(ds, " ") + "] " + Join(ms, " ")
      == "* " + Join([n, c] + (Bracket(b, ds) + ms), " ")
  {
    var D := Join(ds, " ");
    var M := Join(ms, " ");
    var tail := Bracket(b, ds) + ms;
    var t := Join(tail, " ");
    calc {
      "* " + n + " " + c + " [" + b + ": " + D + "] " + M;
      { LineHeadText(n, c, b, D, M); }
      "* " + (n + (" " + (c + (" " + ("[" + (b + (":" + (" " + (D + ("]" + (" " + M)))))))))));
      { BracketJoin(b, ds); JoinAppend(Bracket(b, ds), ms, " "); BracketTailText(b, D, M); }
      "* " + (n + (" " + (c + (" " + t))));
      { Seqs.AppendAssoc(c, " ", t); JoinCons(c, tail, " "); }
      "* " + (n + (" " + Join([c] + tail, " ")));
      { Seqs.AppendAssoc(n, " ", Join([c] + tail, " ")); JoinCons(n, [c] + tail, " "); }
      "* " + Join([n] + ([c] + tail), " ");
      { assert [n] + ([c] + tail) == [n, c] + tail; }
      "* " + Join([n, c] + tail, " ");
    }
  }

  /** The bracket and the message, right-nested. */
  lemma BracketTailText(b: string, D: string, M: string)
    ensures "[" + (b + ":" + " " + (D + "]")) + " " + M == "[" + (b + (":" + (" " + (D + ("]" + (" " + M))))))
  {
    var r1 := "]" + (" " + M);
    var Q := b + ":" + " " + (D + "]");
    calc {
      ("[" + Q) + " " + M;
      { Seqs.AppendAssoc("[" + Q, " ", M); Seqs.AppendAssoc("[", Q, " " + M); }
      "[" + (Q + (" " + M));
      { Seqs.AppendAssoc(b + ":" + " ", D + "]", " " + M); Seqs.AppendAssoc(D, "]", " " + M); }
      "[" + (b + ":" + " " + (D + r1));
      { Seqs.AppendAssoc(b + ":", " ", D + r1); Seqs.AppendAssoc(b, ":", " " + (D + r1)); }
      "[" + (b + (":" + (" " + (D + r1))));
    }
  }

  /** The line as written, right-nested. */
  lemma LineHeadText(n: string, c: string, b: string, D: string, M: string)
    ensures "* " + n + " " + c + " [" + b + ": " + D + "] " + M
      == "* " + (n + (" " + (c + (" " + ("[" + (b + (":" + (" " + (D + ("]" + (" " + M)))))))))))
  {
    var r1 := "]" + (" " + M);
    var r2 := ":" + (" " + (D + r1));
    var x7 := "* " + n + " " + c + " [" + b + ": " + D;
    var x6 := "* " + n + " " + c + " [" + b + ": ";
    var x5 := "* " + n + " " + c + " [" + b;
    var x4 := "* " + n + " " + c + " [";
    var x3 := "* " + n + " " + c;
    var x2 := "* " + n + " ";
    calc {
      x7 + "] " + M;
      { Seqs.AppendAssoc(x7, "] ", M); assert "] " == "]" + " "; Seqs.AppendAssoc("]", " ", M); }
      x7 + r1;
      { Seqs.AppendAssoc(x6, D, r1); }
      x6 + (D + r1);
      { Seqs.AppendAssoc(x5, ": ", D + r1); assert ": " == ":" + " "; Seqs.AppendAssoc(":", " ", D + r1); }
      x5 + r2;
      { Seqs.AppendAssoc(x4, b, r2); }
      x4 + (b + r2);
      { Seqs.AppendAssoc(x3, " [", b + r2); assert " [" == " " + "["; Seqs.AppendAssoc(" ", "[", b + r2); }
      x3 + (" " + ("[" + (b + r2)));
      { Seqs.AppendAssoc(x2, c, " " + ("[" + (b + r2))); }
      x2 + (c + (" " + ("[" + (b + r2))));
      { Seqs.AppendAssoc("* " + n, " ", c + (" " + ("[" + (b + r2)))); }
      "* " + n + (" " + (c + (" " + ("[" + (b + r2)))));
      { Seqs.AppendAssoc("* ", n, " " + (c + (" " + ("[" + (b + r2))))); }
      "* " + (n + (" " + (c + (" " + ("[" + (b + r2))))));
    }
  }

  /** A branch that is not checked out and has no upstream:
      "  <name> <commit> <message words>", the message not starting with "[". */
  lemma ParsePlainLine(n: string, c: string, ms: seq<string>)
    requires IsField(n, IsSpace) && n[0] != '(' && IsField(c, IsSpace)
    requires |ms| >= 1 && AllFields(ms) && ms[0][0] != '['
    ensures ParseBranch("  " + n + " " + c + " " + Join(ms, " "))
      == Ok(BranchDetail(n, StatusNone, false, false, "", c, Join(ms, " ")))
  {
    var line := "  " + n + " " + c + " " + Join(ms, " ");
    var rest := [c] + ms;
    AllFieldsAppend([c], ms);
    PlainName(n, c, ms);
    NextFieldOfJoin(rest);
    assert rest[1..] == ms;
    JoinFieldsUnpadded(ms);
    ParseBranchFields(line);
    AfterNamePlain(line, false, n, false, Join(rest, " "), c, Join(ms, " "));
  }

  /** The name of a plain line is its first field. */
  lemma PlainName(n: string, c: string, ms: seq<string>)
    requires IsField(n, IsSpace) && n[0] != '(' && IsField(c, IsSpace)
    requires |ms| >= 1 && AllFields(ms)
    ensures var line := "  " + n + " " + c + " " + Join(ms, " ");
      !HasPrefix(line, "*") && Unstarred(line) == line && NameSplit(line) == Some((n, Join([c] + ms, " ")))
  {
    var rest := [c] + ms;
    AllFieldsAppend([c], ms);
    AllFieldsAppend([n], rest);
    PlainText(n, c, ms);
    IndentedSplit(n, rest);
  }

  /** A line indented by two spaces splits at its first field. */
  lemma IndentedSplit(n: string, rest: seq<string>)
    requires |rest| >= 1 && AllFields([n] + rest)
    ensures var line := "  " + Join([n] + rest, " ");
      !HasPrefix(line, "*") && !HasPrefix(line, "(") && NextField(line) == Some((n, Join(rest, " ")))
  {
    var f := Join([n] + rest, " ");
    JoinFieldsUnpadded([n] + rest);
    IndentedFields(f);
    HeadSplit(n, rest);
    assert ("  " + f)[0] == ' ';
  }

  /** Leading spaces change no field. */
  lemma IndentedFields(f: string)
    requires f != "" && !IsSpace(f[0])
    ensures Fields("  " + f) == Fields(f)
  {
    var line := "  " + f;
    FieldsFromShift("  ", f, 0, IsSpace);
    SkipFromShift("  ", f, 0, IsSpace);
    assert SkipFrom(f, 0, IsSpace) == 0;
    assert SkipFrom(line, 0, IsSpace) == SkipFrom(line, 2, IsSpace);
    assert FieldsFrom(line, 0, IsSpace) == FieldsFrom(line, 2, IsSpace);
  }

  lemma PlainText(n: string, c: string, ms: seq<string>)
    requires |ms| >= 1
    ensures "  " + n + " " + c + " " + Join(ms, " ") == "  " + Join([n] + ([c] + ms), " ")
  {
    var M := Join(ms, " ");
    calc {
      "  " + n + " " + c + " " + M;
      { Seqs.AppendAssoc("  " + n + " " + c, " ", M);
        Seqs.AppendAssoc("  " + n + " ", c, " " + M);
        Seqs.AppendAssoc("  " + n, " ", c + (" " + M));
        Seqs.AppendAssoc("  ", n, " " + (c + (" " + M))); }
      "  " + (n + (" " + (c + (" " + M))));
      { Seqs.AppendAssoc(c, " ", M); JoinCons(c, ms, " "); }
      "  " + (n + (" " + Join([c] + ms, " ")));
      { Seqs.AppendAssoc(n, " ", Join([c] + ms, " ")); JoinCons(n, [c] + ms, " "); }
      "  " + Join([n] + ([c] + ms), " ");
    }
  }

  /** ListLocalBranches' parse loop: every line parsed in order; the first failure is the
      result. */
  function ParseAll(lines: seq<string>): Result<seq<BranchDetail>, Error> {
    Seqs.Collect(Seqs.Map(lines, ParseBranch))
  }

  method ListLocalBranches(output: Result<seq<string>, Error>) returns (r: Result<seq<BranchDetail>, Error>)
    ensures output.Err? ==> r == Err(output.error)
    ensures output.Ok? ==> r == ParseAll(output.value)
  {
    if output.Err? {
      return Err(output.error);
    }
    var lines := output.value;
    ghost var ps := Seqs.Map(lines, ParseBranch);
    var branches: seq<BranchDetail> := [];
    for i := 0 to |lines|
      invariant Seqs.Collect(ps[..i]) == Ok(branches)
    {
      var branch := ParseBranchDetail(lines[i]);
      assert branch == ps[i];
      Seqs.CollectPrefixStep(ps, i);
      if branch.Err? {
        Seqs.CollectErrPersists(ps, i + 1);
        return Err(branch.error);
      }
      branches := branches + [branch.value];
    }
    assert ps[..|lines|] == ps;
    return Ok(branches);
  }

  /** The remote branch names of `git branch -r` that are "<remote>/<name>", not tracked by
      a local branch and not the "HEAD ->" alias. */
  predicate KeepRemoteLine(prefix: string, tracked: set<string>, line: string) {
    HasPrefix(line, prefix) && line !in tracked && !HasPrefix(TrimPrefix(line, prefix), "HEAD ->")
  }

  /** The upstreams the local branches track. */
  function Tracked(locals: seq<BranchDetail>): set<string> {
    set b | b in locals && b.isRemote :: b.remote
  }

  function RemoteNames(prefix: string, tracked: set<string>, lines: seq<string>): seq<string> {
    Seqs.Map(Seqs.Filter(lines, l => KeepRemoteLine(prefix, tracked, l)), l => TrimPrefix(l, prefix))
  }

  method ListRemoteBranches(remote: string, locals: seq<BranchDetail>, output: Result<seq<string>, Error>)
    returns (r: Result<seq<string>, Error>)
    ensures output.Err? ==> r == Err(output.error)
    ensures output.Ok? ==> r == Ok(RemoteNames(remote + "/", Tracked(locals), output.value))
    ensures r.Ok? ==> forall n :: n in r.value ==>
      remote + "/" + n in output.value && remote + "/" + n !in Tracked(locals) && !HasPrefix(n, "HEAD ->")
  {
    var localMap: set<string> := {};
    for i := 0 to |locals|
      invariant localMap == set b | b in locals[..i] && b.isRemote :: b.remote
    {
      assert locals[..i + 1] == locals[..i] + [locals[i]];
      if locals[i].isRemote {
        localMap := localMap + {locals[i].remote};
      }
    }
    assert locals[..|locals|] == locals;
    if output.Err? {
      return Err(output.error);
    }
    var lines := output.value;
    var prefix := remote + "/";
    var names: seq<string> := [];
    for i := 0 to |lines|
      invariant names == RemoteNames(prefix, localMap, lines[..i])
    {
      var line := lines[i];
      Seqs.FilterPrefixStep(lines, i, l => KeepRemoteLine(prefix, localMap, l));
      var kept := Seqs.Filter(lines[..i], l => KeepRemoteLine(prefix, localMap, l));
      Seqs.MapSnoc(kept, line, l => TrimPrefix(l, prefix));
      if HasPrefix(line, prefix) {
        if line !in localMap {
          var name := TrimPrefix(line, prefix);
          if HasPrefix(name, "HEAD ->") {
            continue;
          }
          names := names + [name];
        }
      }
    }
    assert lines[..|lines|] == lines;
    r := Ok(names);
    RemoteNamesSound(prefix, localMap, lines);
  }

  method ListLocalBranchNames(current: bool, branches: Result<seq<BranchDetail>, Error>) returns (r: Result<seq<string>, Error>)
    ensures branches.Err? ==> r == Err(branches.error)
    ensures branches.Ok? ==>
      r == Ok(Seqs.Map(Seqs.Filter(branches.value, (b: BranchDetail) => current || !b.current), (b: BranchDetail) => b.name))
  {
    if branches.Err? {
      return Err(branches.error);
    }
    var bs := branches.value;
    var names: seq<string> := [];
    for i := 0 to |bs|
      invariant names == Seqs.Map(Seqs.Filter(bs[..i], (b: BranchDetail) => current || !b.current), (b: BranchDetail) => b.name)
    {
      Seqs.FilterPrefixStep(bs, i, (b: BranchDetail) => current || !b.current);
      Seqs.MapSnoc(Seqs.Filter(bs[..i], (b: BranchDetail) => current || !b.current), bs[i], (b: BranchDetail) => b.name);
      if bs[i].current && !current {
        continue;
      }
      names := names + [bs[i].name];
    }
    assert bs[..|bs|] == bs;
    return Ok(names);
  }

  // ---------------------------------------------------------------------------------------

  /** A parsed list has one detail per line, each the line's own parse. */
  lemma ParseAllOk(lines: seq<string>, i: nat)
    requires ParseAll(lines).Ok? && i < |lines|
    ensures |ParseAll(lines).value| == |lines|
    ensures ParseBranch(lines[i]) == Ok(ParseAll(lines).value[i])
  {
    Seqs.CollectOk(Seqs.Map(lines, ParseBranch), i);
  }

  /** The parse fails with the error of the first line that does not parse. */
  lemma ParseAllFirstError(lines: seq<string>, k: nat)
    requires k < |lines| && ParseBranch(lines[k]).Err?
    requires forall i :: 0 <= i < k ==> ParseBranch(lines[i]).Ok?
    ensures ParseAll(lines) == Err(ParseBranch(lines[k]).error)
  {
    Seqs.CollectFirstError(Seqs.Map(lines, ParseBranch), k);
  }

  lemma RemoteNamesSound(prefix: string, tracked: set<string>, lines: seq<string>)
    ensures forall n :: n in RemoteNames(prefix, tracked, lines) ==>
      prefix + n in lines && prefix + n !in tracked && !HasPrefix(n, "HEAD ->")
  {
    var kept := Seqs.Filter(lines, l => KeepRemoteLine(prefix, tracked, l));
    forall n | n in RemoteNames(prefix, tracked, lines)
      ensures prefix + n in lines && prefix + n !in tracked && !HasPrefix(n, "HEAD ->")
    {
      var k :| 0 <= k < |kept| && RemoteNames(prefix, tracked, lines)[k] == n;
      assert kept[k] in kept;
      assert prefix + n == kept[k];
    }
  }

  /** The element of a range split ends with `end` when some field does, and then the
      element and the remainder together are the fields again. */
  lemma RangeSplitClosed(s: string, end: string)
    requires exists k :: 0 <= k < |Fields(s)| && HasSuffix(Fields(s)[k], end)
    ensures var fields := Fields(s); var i := FirstEnding(fields, end, 0);
      RangeSplit(s, end) == (Join(fields[..i + 1], " "), Join(fields[i + 1..], " ")) &&
      HasSuffix(fields[i], end) && fields[..i + 1] + fields[i + 1..] == fields
  {
  }
}
