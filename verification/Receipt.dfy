/** The journal's receipt for an upload, and the acknowledgement kept for it. */
module Receipt {
  import opened Prelude

  datatype UploadStatus = Stored | Collision | Duplicate | Conflict | NotStored

  /** What is wrong with a receipt. */
  datatype Fault =
    | UploadNotAcknowledged | MalformedDescriptor | Sha256Encoding | MissingDisposition | UnknownDisposition
    | DuplicateSubmitted | ReceivedNotWritten | ExtraDescriptor | MissingDescriptor | SizeMismatch | Sha256Mismatch

  datatype Descriptor = Descriptor(submitted: string, written: string, size: nat, sha256: string, disposition: string)

  datatype LocalFile = LocalFile(name: string, size: nat, sha256: string)

  /** `descriptors` is absent, malformed, or a list. */
  datatype UploadResult = UploadResult(status: UploadStatus, descriptors: Option<Result<seq<Descriptor>, Fault>>)

  datatype Receipt = Absent | Invalid(fault: Fault) | Confirmed(files: seq<Descriptor>)

  // ---------- Shape ----------

  /** A JSON value, as far as descriptors look at it. */
  datatype Json = Text(text: string) | Unsigned(number: nat) | Object(fields: map<string, Json>) | Other

  predicate HexDigit(c: char) { '0' <= c <= '9' || 'a' <= c <= 'f' || 'A' <= c <= 'F' }

  predicate HexDigest(s: string) {
    |s| == 64 && forall i :: 0 <= i < 64 ==> HexDigit(s[i])
  }

  predicate LowerCase(s: string) {
    forall i :: 0 <= i < |s| ==> !('A' <= s[i] <= 'Z')
  }

  predicate KnownDisposition(s: string) {
    s == "written" || s == "already_held" || s == "received_not_written"
  }

  predicate TextField(o: Json, name: string) {
    o.Object? && name in o.fields && o.fields[name].Text?
  }

  /** One descriptor, or the first thing wrong with it. */
  function DescriptorOf(v: Json): Result<Descriptor, Fault> {
    if !TextField(v, "submitted") || !TextField(v, "written") || !("size" in v.fields && v.fields["size"].Unsigned?)
       || !TextField(v, "sha256") || !HexDigest(v.fields["sha256"].text) then Err(MalformedDescriptor)
    else if !LowerCase(v.fields["sha256"].text) then Err(Sha256Encoding)
    else if "disposition" !in v.fields then Err(MissingDisposition)
    else if !v.fields["disposition"].Text? then Err(MalformedDescriptor)
    else if !KnownDisposition(v.fields["disposition"].text) then Err(UnknownDisposition)
    else Ok(Descriptor(v.fields["submitted"].text, v.fields["written"].text, v.fields["size"].number,
                       v.fields["sha256"].text, v.fields["disposition"].text))
  }

  /** A descriptor the journal may send. */
  predicate WellFormed(d: Descriptor) {
    HexDigest(d.sha256) && LowerCase(d.sha256) && KnownDisposition(d.disposition)
  }

  predicate FirstFault(items: seq<Json>, i: int, fault: Fault) {
    && 0 <= i < |items| && DescriptorOf(items[i]) == Err(fault)
    && forall j :: 0 <= j < i ==> DescriptorOf(items[j]).Ok?
  }

  /** The list is good exactly when every item is; otherwise the fault is that of the first bad one. */
  method ParseDescriptors(items: seq<Json>) returns (r: Result<seq<Descriptor>, Fault>)
    ensures r.Ok? <==> forall i :: 0 <= i < |items| ==> DescriptorOf(items[i]).Ok?
    ensures r.Ok? ==> |r.value| == |items| && forall i :: 0 <= i < |items| ==>
      DescriptorOf(items[i]) == Ok(r.value[i]) && WellFormed(r.value[i])
    ensures r.Err? ==> exists i :: FirstFault(items, i, r.error)
  {
    var descriptors := [];
    for i := 0 to |items|
      invariant |descriptors| == i
      invariant forall j :: 0 <= j < i ==> DescriptorOf(items[j]) == Ok(descriptors[j]) && WellFormed(descriptors[j])
    {
      var d := DescriptorOf(items[i]);
      if d.Err? {
        assert FirstFault(items, i, d.error);
        return Err(d.error);
      }
      descriptors := descriptors + [d.value];
    }
    return Ok(descriptors);
  }

  // ---------- Assessment ----------

  predicate Distinct(names: seq<string>) {
    forall i, j :: 0 <= i < j < |names| ==> names[i] != names[j]
  }

  function Submitted(ds: seq<Descriptor>): (names: seq<string>)
    ensures |names| == |ds| && forall i :: 0 <= i < |ds| ==> names[i] == ds[i].submitted
  {
    seq(|ds|, i requires 0 <= i < |ds| => ds[i].submitted)
  }

  function NamesOf(files: seq<LocalFile>): (names: seq<string>)
    ensures |names| == |files| && forall i :: 0 <= i < |files| ==> names[i] == files[i].name
  {
    seq(|files|, i requires 0 <= i < |files| => files[i].name)
  }

  predicate Describes(d: Descriptor, f: LocalFile) {
    d.submitted == f.name && d.size == f.size && d.sha256 == f.sha256
  }

  /** `pairing[i]` is the local file descriptor `i` stands for; every file is met exactly once. */
  predicate Pairs(ds: seq<Descriptor>, files: seq<LocalFile>, pairing: seq<nat>) {
    && |pairing| == |ds| == |files|
    && (forall i :: 0 <= i < |ds| ==> pairing[i] < |files| && Describes(ds[i], files[pairing[i]]))
    && (forall i, j :: 0 <= i < j < |ds| ==> pairing[i] != pairing[j])
    && (forall k :: 0 <= k < |files| ==> k in pairing)
  }

  predicate Acknowledges(status: UploadStatus) {
    status != Conflict && status != NotStored
  }

  /** The descriptors and the local files correspond one to one, and every file was kept. */
  ghost predicate InBijection(ds: seq<Descriptor>, files: seq<LocalFile>) {
    && (forall i :: 0 <= i < |ds| ==> ds[i].disposition != "received_not_written")
    && exists pairing :: Pairs(ds, files, pairing)
  }

  /** The last file of each name, as a hash map keeps it. */
  function ByName(files: seq<LocalFile>): map<string, LocalFile> {
    if files == [] then map[] else ByName(files[..|files| - 1])[files[|files| - 1].name := files[|files| - 1]]
  }

  lemma {:induction false} ByNameFinds(files: seq<LocalFile>)
    ensures forall n :: n in ByName(files) <==> n in NamesOf(files)
    ensures forall n :: n in ByName(files) ==> ByName(files)[n] in files && ByName(files)[n].name == n
  {
    if files != [] {
      var init := files[..|files| - 1];
      ByNameFinds(init);
      assert NamesOf(files) == NamesOf(init) + [files[|files| - 1].name];
      assert forall f :: f in init ==> f in files;
    }
  }

  lemma {:induction false} DistinctFindsItself(files: seq<LocalFile>, k: nat)
    requires Distinct(NamesOf(files)) && k < |files|
    ensures files[k].name in ByName(files) && ByName(files)[files[k].name] == files[k]
  {
    var init := files[..|files| - 1];
    assert forall i :: 0 <= i < |init| ==> NamesOf(init)[i] == NamesOf(files)[i];
    assert NamesOf(files)[|files| - 1] == files[|files| - 1].name && NamesOf(files)[k] == files[k].name;
    if k < |files| - 1 {
      DistinctFindsItself(init, k);
    }
  }

  /** Looking each descriptor up by name finds a file it describes. */
  predicate ContentsAgree(ds: seq<Descriptor>, byName: map<string, LocalFile>) {
    forall i :: 0 <= i < |ds| ==> ds[i].submitted in byName && Describes(ds[i], byName[ds[i].submitted])
  }

  /** The tests that come before the sizes and digests are compared. */
  predicate NamesAgree(ds: seq<Descriptor>, files: seq<LocalFile>) {
    && Distinct(Submitted(ds)) && |ds| == |files|
    && (forall i :: 0 <= i < |ds| ==> ds[i].submitted in NamesOf(files))
    && (forall k :: 0 <= k < |files| ==> files[k].name in Submitted(ds))
  }

  method CheckNames(ds: seq<Descriptor>, files: seq<LocalFile>) returns (fault: Option<Fault>)
    ensures fault.None? <==> NamesAgree(ds, files) && forall i :: 0 <= i < |ds| ==> ds[i].disposition != "received_not_written"
    ensures fault == Some(DuplicateSubmitted) <==> !Distinct(Submitted(ds))
    ensures fault == Some(ReceivedNotWritten) <==>
      Distinct(Submitted(ds)) && exists i :: 0 <= i < |ds| && ds[i].disposition == "received_not_written"
    ensures fault in {None, Some(DuplicateSubmitted), Some(ReceivedNotWritten), Some(ExtraDescriptor), Some(MissingDescriptor)}
  {
    var seen: set<string> := {};
    for i := 0 to |ds|
      invariant Distinct(Submitted(ds[..i]))
      invariant forall n :: n in seen <==> n in Submitted(ds[..i])
    {
      assert Submitted(ds[..i + 1]) == Submitted(ds[..i]) + [ds[i].submitted];
      if ds[i].submitted in seen {
        RepeatedIsNotDistinct(ds, i);
        return Some(DuplicateSubmitted);
      }
      seen := seen + {ds[i].submitted};
    }
    assert ds[..|ds|] == ds;
    if exists i :: 0 <= i < |ds| && ds[i].disposition == "received_not_written" {
      return Some(ReceivedNotWritten);
    }
    if |ds| > |files| {
      return Some(ExtraDescriptor);
    }
    if |ds| < |files| {
      return Some(MissingDescriptor);
    }
    if exists i :: 0 <= i < |ds| && ds[i].submitted !in NamesOf(files) {
      return Some(ExtraDescriptor);
    }
    if exists k :: 0 <= k < |files| && files[k].name !in seen {
      return Some(MissingDescriptor);
    }
    return None;
  }

  lemma RepeatedIsNotDistinct(ds: seq<Descriptor>, i: nat)
    requires i < |ds| && ds[i].submitted in Submitted(ds[..i])
    ensures !Distinct(Submitted(ds))
  {
    var j :| 0 <= j < i && Submitted(ds[..i])[j] == ds[i].submitted;
    assert Submitted(ds)[j] == Submitted(ds)[i];
  }

  /** Sizes and digests, descriptor by descriptor. */
  method CheckContents(ds: seq<Descriptor>, files: seq<LocalFile>) returns (fault: Option<Fault>)
    requires NamesAgree(ds, files)
    ensures fault.None? <==> ContentsAgree(ds, ByName(files))
    ensures fault in {None, Some(SizeMismatch), Some(Sha256Mismatch)}
  {
    ByNameFinds(files);
    var byName := ByName(files);
    for i := 0 to |ds|
      invariant forall j :: 0 <= j < i ==> Describes(ds[j], byName[ds[j].submitted])
    {
      var local := byName[ds[i].submitted];
      if ds[i].size != local.size {
        return Some(SizeMismatch);
      }
      if ds[i].sha256 != local.sha256 {
        return Some(Sha256Mismatch);
      }
    }
    return None;
  }

  lemma AgreementIsBijection(ds: seq<Descriptor>, files: seq<LocalFile>)
    requires Distinct(NamesOf(files)) && NamesAgree(ds, files)
    requires ContentsAgree(ds, ByName(files))
    ensures exists pairing :: Pairs(ds, files, pairing)
  {
    var pairing := seq(|ds|, i requires 0 <= i < |ds| => IndexOf(NamesOf(files), ds[i].submitted));
    forall i | 0 <= i < |ds|
      ensures Describes(ds[i], files[pairing[i]])
    {
      DistinctFindsItself(files, pairing[i]);
    }
    forall k | 0 <= k < |files|
      ensures k in pairing
    {
      var i :| 0 <= i < |ds| && Submitted(ds)[i] == files[k].name;
      assert NamesOf(files)[pairing[i]] == NamesOf(files)[k];
      assert pairing[i] == k;
    }
    assert Pairs(ds, files, pairing);
  }

  function IndexOf(names: seq<string>, name: string): (i: nat)
    requires name in names
    ensures i < |names| && names[i] == name
  {
    if names[0] == name then 0 else IndexOf(names[1..], name) + 1
  }

  lemma BijectionIsAgreement(ds: seq<Descriptor>, files: seq<LocalFile>, pairing: seq<nat>)
    requires Distinct(NamesOf(files)) && Pairs(ds, files, pairing)
    ensures NamesAgree(ds, files)
    ensures ContentsAgree(ds, ByName(files))
  {
    forall i | 0 <= i < |ds|
      ensures ds[i].submitted in NamesOf(files) && ds[i].submitted in ByName(files)
      ensures Describes(ds[i], ByName(files)[ds[i].submitted])
    {
      assert NamesOf(files)[pairing[i]] == ds[i].submitted;
      DistinctFindsItself(files, pairing[i]);
    }
    forall i, j | 0 <= i < j < |ds|
      ensures Submitted(ds)[i] != Submitted(ds)[j]
    {
      assert NamesOf(files)[pairing[i]] != NamesOf(files)[pairing[j]];
    }
    forall k | 0 <= k < |files|
      ensures files[k].name in Submitted(ds)
    {
      assert k in pairing;
      var i :| 0 <= i < |pairing| && pairing[i] == k;
      assert Submitted(ds)[i] == files[k].name;
    }
  }

  /** The journal confirmed exactly these files. */
  ghost predicate Confirms(result: UploadResult, files: seq<LocalFile>, acknowledged: seq<Descriptor>) {
    && Acknowledges(result.status) && result.descriptors == Some(Ok(acknowledged))
    && InBijection(acknowledged, files)
  }

  /**
   * With distinct local names, a receipt is valid exactly when the upload was acknowledged and
   * its descriptors stand one to one for the local files, each of them kept by the journal.
   */
  method AssessReceipt(result: UploadResult, files: seq<LocalFile>) returns (r: Receipt)
    requires Distinct(NamesOf(files))
    ensures r.Absent? <==> Acknowledges(result.status) && result.descriptors.None?
    ensures r.Confirmed? ==> Confirms(result, files, r.files)
    ensures !r.Confirmed? ==> forall ds :: !Confirms(result, files, ds)
    ensures !Acknowledges(result.status) ==> r == Invalid(UploadNotAcknowledged)
    ensures Acknowledges(result.status) && result.descriptors.Some? && result.descriptors.value.Ok? ==>
      var ds := result.descriptors.value.value;
      && (r == Invalid(DuplicateSubmitted) <==> !Distinct(Submitted(ds)))
      && (r == Invalid(ReceivedNotWritten) <==>
            Distinct(Submitted(ds)) && exists i :: 0 <= i < |ds| && ds[i].disposition == "received_not_written")
  {
    if !Acknowledges(result.status) {
      return Invalid(UploadNotAcknowledged);
    }
    if result.descriptors.None? {
      return Receipt.Absent;
    }
    if result.descriptors.value.Err? {
      return Invalid(result.descriptors.value.error);
    }
    hide NamesAgree, Pairs, Distinct;
    var ds := result.descriptors.value.value;
    if pairing :| Pairs(ds, files, pairing) {
      BijectionIsAgreement(ds, files, pairing);
    }
    var fault := CheckNames(ds, files);
    if fault.Some? {
      return Invalid(fault.value);
    }
    fault := CheckContents(ds, files);
    if fault.Some? {
      return Invalid(fault.value);
    }
    AgreementIsBijection(ds, files);
    return Confirmed(ds);
  }

  // ---------- The acknowledgement ----------

  datatype Identity = Identity(instanceId: string, caPrefix: string, generation: string)

  /** `location` stands for where the record lies and which segment it is for. */
  datatype Ack = Ack(location: string, proof: string, identity: Identity, files: seq<Descriptor>)

  function WriteAck(location: string, identity: Identity, files: seq<Descriptor>): Ack {
    Ack(location, "upload", identity, files)
  }

  predicate Covers(files: seq<Descriptor>, local: LocalFile) {
    exists i :: 0 <= i < |files| && Describes(files[i], local)
      && (files[i].disposition == "written" || files[i].disposition == "already_held")
  }

  /** This record acknowledges all of `files` to this journal. */
  predicate Accepts(ack: Ack, location: string, identity: Identity, files: seq<LocalFile>) {
    && ack.location == location && ack.proof == "upload" && ack.identity == identity
    && Distinct(Submitted(ack.files))
    && forall k :: 0 <= k < |files| ==> Covers(ack.files, files[k])
  }

  /** Another journal's record is left alone; a record of this journal that fails is deleted. */
  method ReadAck(stored: Option<Ack>, location: string, identity: Identity, files: seq<LocalFile>)
    returns (ack: Option<Ack>, left: Option<Ack>)
    ensures ack.Some? <==> stored.Some? && Accepts(stored.value, location, identity, files)
    ensures ack.Some? ==> ack == stored
    ensures left == if stored.Some? && ack.None? && stored.value.location == location && stored.value.proof == "upload"
                       && stored.value.identity == identity then None else stored
  {
    if stored.None? {
      return None, None;
    }
    var record := stored.value;
    if record.location != location || record.proof != "upload" || record.identity != identity {
      return None, stored;
    }
    var covered := CheckCoverage(record.files, files);
    return if covered then stored else None, if covered then stored else None;
  }

  method CheckCoverage(acknowledged: seq<Descriptor>, files: seq<LocalFile>) returns (ok: bool)
    ensures ok <==> Distinct(Submitted(acknowledged)) && forall k :: 0 <= k < |files| ==> Covers(acknowledged, files[k])
  {
    var bySubmitted: map<string, Descriptor> := map[];
    for i := 0 to |acknowledged|
      invariant Distinct(Submitted(acknowledged[..i]))
      invariant forall n :: n in bySubmitted <==> n in Submitted(acknowledged[..i])
      invariant forall j :: 0 <= j < i ==> bySubmitted[Submitted(acknowledged[..i])[j]] == acknowledged[j]
    {
      assert Submitted(acknowledged[..i + 1]) == Submitted(acknowledged[..i]) + [acknowledged[i].submitted];
      if acknowledged[i].submitted in bySubmitted {
        RepeatedIsNotDistinct(acknowledged, i);
        return false;
      }
      bySubmitted := bySubmitted[acknowledged[i].submitted := acknowledged[i]];
    }
    assert acknowledged[..|acknowledged|] == acknowledged;
    for k := 0 to |files|
      invariant forall j :: 0 <= j < k ==> Covers(acknowledged, files[j])
    {
      LookupCovers(acknowledged, bySubmitted, files[k]);
      if files[k].name !in bySubmitted {
        return false;
      }
      var d := bySubmitted[files[k].name];
      if !(d.disposition == "written" || d.disposition == "already_held") || d.size != files[k].size || d.sha256 != files[k].sha256 {
        return false;
      }
    }
    return true;
  }

  lemma LookupCovers(files: seq<Descriptor>, bySubmitted: map<string, Descriptor>, local: LocalFile)
    requires Distinct(Submitted(files))
    requires forall n :: n in bySubmitted <==> n in Submitted(files)
    requires forall j :: 0 <= j < |files| ==> bySubmitted[Submitted(files)[j]] == files[j]
    ensures Covers(files, local) <==> (
      && local.name in bySubmitted && Describes(bySubmitted[local.name], local)
      && (bySubmitted[local.name].disposition == "written" || bySubmitted[local.name].disposition == "already_held"))
  {
    if local.name in bySubmitted {
      var j :| 0 <= j < |files| && Submitted(files)[j] == local.name;
      assert bySubmitted[local.name] == files[j];
      forall i | 0 <= i < |files| && Describes(files[i], local)
        ensures i == j
      {
        assert Submitted(files)[i] == Submitted(files)[j];
      }
    }
  }

  /** A receipt that was confirmed is read back for every part of the files, so deletion can resume. */
  lemma ConfirmedReadsBack(result: UploadResult, files: seq<LocalFile>, acknowledged: seq<Descriptor>, location: string,
                           identity: Identity, rest: seq<LocalFile>)
    requires Distinct(NamesOf(files)) && Confirms(result, files, acknowledged)
    requires forall i :: 0 <= i < |acknowledged| ==> WellFormed(acknowledged[i])
    requires forall f :: f in rest ==> f in files
    ensures Accepts(WriteAck(location, identity, acknowledged), location, identity, rest)
  {
    var pairing :| Pairs(acknowledged, files, pairing);
    BijectionIsAgreement(acknowledged, files, pairing);
    forall k | 0 <= k < |rest|
      ensures Covers(acknowledged, rest[k])
    {
      assert rest[k] in rest;
      var j :| 0 <= j < |files| && files[j] == rest[k];
      var i :| 0 <= i < |pairing| && pairing[i] == j;
      assert Describes(acknowledged[i], rest[k]);
    }
  }

  /** The acknowledgement for a segment the journal had already removed: every local file, as written. */
  function AllWritten(files: seq<LocalFile>): (ds: seq<Descriptor>)
    ensures |ds| == |files|
    ensures forall i :: 0 <= i < |files| ==> Describes(ds[i], files[i]) && ds[i].disposition == "written"
  {
    seq(|files|, i requires 0 <= i < |files| =>
      Descriptor(files[i].name, files[i].name, files[i].size, files[i].sha256, "written"))
  }

  lemma AllWrittenReadsBack(files: seq<LocalFile>, location: string, identity: Identity, rest: seq<LocalFile>)
    requires Distinct(NamesOf(files)) && forall f :: f in rest ==> f in files
    ensures Accepts(WriteAck(location, identity, AllWritten(files)), location, identity, rest)
  {
    assert Submitted(AllWritten(files)) == NamesOf(files);
    forall k | 0 <= k < |rest|
      ensures Covers(AllWritten(files), rest[k])
    {
      assert rest[k] in rest;
      var j :| 0 <= j < |files| && files[j] == rest[k];
      assert Describes(AllWritten(files)[j], rest[k]);
    }
  }
}
