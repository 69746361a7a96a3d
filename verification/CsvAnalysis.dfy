/** Loading a file for analysis only: file and client names are replaced by short
    ones (`OperationsFromCSV` in pkg/bench/ops.go). */
module CsvAnalysis {
  import opened Basics
  import opened Arithmetic
  import opened Operations
  import opened CsvText
  import opened CsvFile

  /** How many different byte values there are. */
  const BYTES: nat := 256

  /** The names numbered from 0 in order of first appearance. */
  function Numbering(names: seq<string>): map<string, nat> {
    if |names| == 0 then map[]
    else
      var m := Numbering(names[..|names| - 1]);
      var name := names[|names| - 1];
      if name in m then m else m[name := |m|]
  }

  function Files(ops: seq<Operation>): seq<string> {
    seq(|ops|, i requires 0 <= i < |ops| => ops[i].file)
  }

  function Clients(ops: seq<Operation>): seq<string> {
    seq(|ops|, i requires 0 <= i < |ops| => ops[i].clientID)
  }

  /** Files are called 1, 2, 3 and so on. */
  function FileName(n: nat): string {
    Decimal(n + 1)
  }

  /** Clients are called by one byte, from 'a' on, which wraps around. */
  function ClientName(n: nat): string {
    [((97 + n) % BYTES) as char]
  }

  function Renamed(ops: seq<Operation>): seq<Operation> {
    var (files, clients) := (Numbering(Files(ops)), Numbering(Clients(ops)));
    seq(|ops|, i requires 0 <= i < |ops| =>
      AllNumbered(Files(ops), i);
      AllNumbered(Clients(ops), i);
      ops[i].(file := FileName(files[ops[i].file]), clientID := ClientName(clients[ops[i].clientID])))
  }

  // ----- the numbering ---------------------------------------------------------------------

  lemma {:induction false} AllNumbered(names: seq<string>, i: nat)
    requires i < |names|
    ensures names[i] in Numbering(names)
  {
    if i < |names| - 1 {
      AllNumbered(names[..|names| - 1], i);
    }
  }

  lemma AddName(m: map<string, nat>, name: string)
    requires name !in m
    ensures |m[name := |m|]| == |m| + 1
  {
    assert m[name := |m|].Keys == m.Keys + {name};
    assert |m| == |m.Keys| && |m[name := |m|]| == |m[name := |m|].Keys|;
  }

  /** Different names have different numbers, all below the number of names. */
  lemma {:induction false} NumbersDiffer(names: seq<string>)
    ensures forall a :: a in Numbering(names) ==> a in names && Numbering(names)[a] < |Numbering(names)|
    ensures forall a, b :: a in Numbering(names) && b in Numbering(names) && Numbering(names)[a] == Numbering(names)[b] ==>
      a == b
  {
    if |names| > 0 {
      var init, last := names[..|names| - 1], names[|names| - 1];
      assert names == init + [last];
      NumbersDiffer(init);
      if last !in Numbering(init) {
        AddName(Numbering(init), last);
      }
    }
  }

  /** Every number below the number of names is some name's. */
  lemma {:induction false} NumbersAreUsed(names: seq<string>, k: nat) returns (i: nat)
    requires k < |Numbering(names)|
    ensures i < |names| && names[i] in Numbering(names) && Numbering(names)[names[i]] == k
  {
    var init, last := names[..|names| - 1], names[|names| - 1];
    var m := Numbering(init);
    if last !in m {
      AddName(m, last);
    }
    if k < |m| {
      i := NumbersAreUsed(init, k);
    } else {
      i := |names| - 1;
    }
  }

  /** Names that come later do not change the number of one that is numbered. */
  lemma {:induction false} NumbersStay(names: seq<string>, i: nat, name: string)
    requires i <= |names| && name in Numbering(names[..i])
    ensures name in Numbering(names) && Numbering(names)[name] == Numbering(names[..i])[name]
    decreases |names|
  {
    if i == |names| {
      assert names[..i] == names;
    } else {
      assert names[..|names| - 1][..i] == names[..i];
      NumbersStay(names[..|names| - 1], i, name);
    }
  }

  // ----- the loop ----------------------------------------------------------------------------

  /** The number of a name, a new one if it has none. */
  method NumberOfName(m: map<string, nat>, name: string, ghost names: seq<string>, ghost i: nat)
    returns (m': map<string, nat>, n: nat)
    requires i < |names| && names[i] == name && m == Numbering(names[..i])
    ensures m' == Numbering(names[..i + 1])
    ensures name in Numbering(names) && n == Numbering(names)[name]
  {
    assert names[..i + 1][..i] == names[..i];
    m' := m;
    if name !in m {
      m' := m'[name := |m|];
    }
    n := m'[name];
    NumbersStay(names, i + 1, name);
  }

  method Rename(ops: seq<Operation>) returns (renamed: seq<Operation>)
    ensures renamed == Renamed(ops)
  {
    var files: map<string, nat> := map[];
    var clients: map<string, nat> := map[];
    renamed := [];
    for i := 0 to |ops|
      invariant files == Numbering(Files(ops)[..i]) && clients == Numbering(Clients(ops)[..i])
      invariant renamed == Renamed(ops)[..i]
    {
      var file, client;
      files, file := NumberOfName(files, ops[i].file, Files(ops), i);
      clients, client := NumberOfName(clients, ops[i].clientID, Clients(ops), i);
      renamed := renamed + [ops[i].(file := FileName(file), clientID := ClientName(client))];
    }
  }

  /** Loading for analysis is loading and renaming. */
  method LoadForAnalysis(codec: TimeCodec, text: string, offset: nat, limit: int) returns (r: Result<seq<Operation>>)
    ensures r == match Load(codec, text, offset, limit) case Ok(ops) => Result.Ok(Renamed(ops)) case Err(e) => Result.Err(e)
  {
    r := OperationsFromCSV(codec, text, offset, limit);
    if r.Ok? {
      var renamed := Rename(r.value);
      r := Result.Ok(renamed);
    }
  }

  // ----- what can be told apart ---------------------------------------------------------------

  lemma SameFileName(a: nat, b: nat)
    requires FileName(a) == FileName(b)
    ensures a == b
  {
    DecimalReads(a + 1);
    DecimalReads(b + 1);
  }

  /** Files that differ are still told apart. */
  lemma FilesStayDistinct(ops: seq<Operation>, i: nat, j: nat)
    requires i < |ops| && j < |ops|
    ensures Renamed(ops)[i].file == Renamed(ops)[j].file <==> ops[i].file == ops[j].file
  {
    AllNumbered(Files(ops), i);
    AllNumbered(Files(ops), j);
    NumbersDiffer(Files(ops));
    var m := Numbering(Files(ops));
    if Renamed(ops)[i].file == Renamed(ops)[j].file {
      SameFileName(m[ops[i].file], m[ops[j].file]);
    }
  }

  lemma SameByte(a: nat, b: nat)
    requires a < BYTES && b < BYTES && ClientName(a) == ClientName(b)
    ensures a == b
  {
  }

  lemma SmallClientsDiffer(ops: seq<Operation>, i: nat, j: nat)
    requires i < |ops| && j < |ops| && |Numbering(Clients(ops))| <= BYTES
    ensures Renamed(ops)[i].clientID == Renamed(ops)[j].clientID <==> ops[i].clientID == ops[j].clientID
  {
    AllNumbered(Clients(ops), i);
    AllNumbered(Clients(ops), j);
    NumbersDiffer(Clients(ops));
    var m := Numbering(Clients(ops));
    if Renamed(ops)[i].clientID == Renamed(ops)[j].clientID {
      SameByte(m[ops[i].clientID], m[ops[j].clientID]);
    }
  }

  /** Clients that differ are still told apart exactly when there are no more than
      256: the 257th gets the name of the first. */
  lemma ClientsStayDistinctIff(ops: seq<Operation>)
    ensures (forall i, j :: 0 <= i < |ops| && 0 <= j < |ops| ==>
               (Renamed(ops)[i].clientID == Renamed(ops)[j].clientID <==> ops[i].clientID == ops[j].clientID))
      <==> |Numbering(Clients(ops))| <= BYTES
  {
    if |Numbering(Clients(ops))| <= BYTES {
      forall i, j | 0 <= i < |ops| && 0 <= j < |ops|
        ensures Renamed(ops)[i].clientID == Renamed(ops)[j].clientID <==> ops[i].clientID == ops[j].clientID
      {
        SmallClientsDiffer(ops, i, j);
      }
    } else {
      var i := NumbersAreUsed(Clients(ops), 0);
      var j := NumbersAreUsed(Clients(ops), BYTES);
      assert ClientName(0) == ClientName(BYTES);
      assert Renamed(ops)[i].clientID == Renamed(ops)[j].clientID && ops[i].clientID != ops[j].clientID;
    }
  }

  /** The first file is called 1 and the first client a. */
  lemma NamesBegin(ops: seq<Operation>)
    requires |ops| > 0
    ensures Renamed(ops)[0].file == "1" && Renamed(ops)[0].clientID == "a"
  {
    FirstIsZero(Files(ops));
    FirstIsZero(Clients(ops));
  }

  lemma FirstIsZero(names: seq<string>)
    requires |names| > 0
    ensures names[0] in Numbering(names) && Numbering(names)[names[0]] == 0
  {
    assert names[..1][..0] == [];
    assert Numbering(names[..1]) == map[names[0] := 0];
    NumbersStay(names, 1, names[0]);
  }
}
