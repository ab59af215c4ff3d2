/** The IDs of a METS document (the ID and IDREF constraints of section 3.3.1 of XML 1.0). */
module MetsIds {
  import opened Sequences
  import Strings

  datatype Kind = DmdSecs | AmdSecs | TechMDs | RightsMDs | DigiprovMDs | SourceMDs | StructMaps

  datatype Id = Numbered(kind: Kind, n: nat) | FileId(uuid: string)

  function Prefix(kind: Kind): string {
    match kind
    case DmdSecs => "dmdSec_"
    case AmdSecs => "amdSec_"
    case TechMDs => "techMD_"
    case RightsMDs => "rightsMD_"
    case DigiprovMDs => "digiprovMD_"
    case SourceMDs => "sourceMD_"
    case StructMaps => "structMap_"
  }

  /** The value of the ID attribute. */
  function Text(id: Id): string {
    match id
    case Numbered(kind, n) => Prefix(kind) + Strings.Decimal(n)
    case FileId(uuid) => "file-" + uuid
  }

  /** The first two characters tell the kinds apart. */
  lemma PrefixesDiffer(a: Kind, b: Kind)
    requires Prefix(a)[..2] == Prefix(b)[..2]
    ensures a == b
  {
    assert Prefix(a)[..2][0] == Prefix(a)[0] && Prefix(a)[..2][1] == Prefix(a)[1];
    assert Prefix(b)[..2][0] == Prefix(b)[0] && Prefix(b)[..2][1] == Prefix(b)[1];
  }

  lemma SameSuffix(p: string, s: string, t: string)
    requires p + s == p + t
    ensures s == t
  {
    assert (p + s)[|p|..] == s && (p + t)[|p|..] == t;
  }

  lemma StartOf(p: string, s: string, k: nat)
    requires k <= |p|
    ensures (p + s)[..k] == p[..k]
  {
  }

  lemma FirstCharacter(id: Id)
    ensures Text(id) != "" && (Text(id)[0] == 'f' <==> id.FileId?)
  {
    if id.Numbered? {
      assert Text(id)[0] == Prefix(id.kind)[0];
    }
  }

  /** Different IDs are different strings. */
  lemma TextInjective(a: Id, b: Id)
    requires Text(a) == Text(b)
    ensures a == b
  {
    FirstCharacter(a);
    FirstCharacter(b);
    if a.FileId? {
      SameSuffix("file-", a.uuid, b.uuid);
    } else {
      StartOf(Prefix(a.kind), Strings.Decimal(a.n), 2);
      StartOf(Prefix(b.kind), Strings.Decimal(b.n), 2);
      PrefixesDiffer(a.kind, b.kind);
      SameSuffix(Prefix(a.kind), Strings.Decimal(a.n), Strings.Decimal(b.n));
      Strings.DecimalInjective(a.n, b.n);
    }
  }

  function Ids(kind: Kind, numbers: seq<nat>): (r: seq<Id>)
    ensures |r| == |numbers| && forall i :: 0 <= i < |r| ==> r[i] == Numbered(kind, numbers[i])
  {
    seq(|numbers|, i requires 0 <= i < |numbers| => Numbered(kind, numbers[i]))
  }

  function FileIds(uuids: seq<string>): (r: seq<Id>)
    ensures |r| == |uuids| && forall i :: 0 <= i < |r| ==> r[i] == FileId(uuids[i])
  {
    seq(|uuids|, i requires 0 <= i < |uuids| => FileId(uuids[i]))
  }

  /** No two elements at different positions have the same ID attribute. */
  lemma DistinctTexts(ids: seq<Id>, i: nat, j: nat)
    requires Distinct(ids) && i < j < |ids|
    ensures Text(ids[i]) != Text(ids[j])
  {
    if Text(ids[i]) == Text(ids[j]) {
      TextInjective(ids[i], ids[j]);
    }
  }
}
