/** The type classifier of `get_special_type_obj`: which handler, if any, a type
    descriptor is given to, decided on the type's printed name alone. */
module Classifier {
  import opened Inspect

  datatype Shape =
    | VectorShape
    | ListShape
    | PairShape
    | MapShape
    | MasternodeShape
    | VerificationShape
    | BroadcastShape
    | Plain

  /** `s.find(p) == 0`: `p` occurs in `s` at position 0. */
  predicate StartsWith(s: string, p: string)
  {
    |p| <= |s| && s[..|p|] == p
  }

  /** The container test shared by the four container handlers: the name begins with
      `std::X<` or with its C++11-ABI spelling `std::__cxx11::X<`. */
  predicate IsContainer(name: string, x: string)
  {
    StartsWith(name, "std::" + x + "<") || StartsWith(name, "std::__cxx11::" + x + "<")
  }

  /** The `is_this_type` test of the handler for `s`, read on its own. */
  predicate Matches(name: string, s: Shape)
  {
    match s
    case VectorShape => IsContainer(name, "vector")
    case ListShape => IsContainer(name, "list")
    case PairShape => IsContainer(name, "pair")
    case MapShape => IsContainer(name, "map")
    case MasternodeShape => name == "CMasternode"
    case VerificationShape => name == "CMasternodeVerification"
    case BroadcastShape => name == "CMasternodeBroadcast"
    case Plain => false
  }

  /** Tries the handlers in their fixed order and takes the first that accepts. */
  function Classify(t: TypeDesc): (s: Shape)
    ensures s != Plain ==> Matches(t.name, s)
    ensures s == Plain ==> forall s' :: !Matches(t.name, s')
  {
    if IsContainer(t.name, "vector") then VectorShape
    else if IsContainer(t.name, "list") then ListShape
    else if IsContainer(t.name, "pair") then PairShape
    else if IsContainer(t.name, "map") then MapShape
    else if t.name == "CMasternode" then MasternodeShape
    else if t.name == "CMasternodeVerification" then VerificationShape
    else if t.name == "CMasternodeBroadcast" then BroadcastShape
    else Plain
  }

  /** `is_special_type`: some handler accepts the type. */
  predicate IsSpecial(t: TypeDesc)
  {
    Classify(t) != Plain
  }

  /** At most one handler ever accepts a name, so the order in which they are tried
      decides nothing: the classifier returns the handler that accepts, and a type
      is special exactly when some handler accepts it. */
  lemma {:induction false} ClassifyIsTheMatchingShape(t: TypeDesc, s: Shape)
    ensures Matches(t.name, s) <==> Classify(t) == s && s != Plain
    ensures IsSpecial(t) <==> exists s' :: Matches(t.name, s')
  {
    var c := Classify(t);
    if c != Plain && Matches(t.name, s) {
      NamesMatchAtMostOneShape(t.name, c, s);
    }
  }

  predicate IsRecordShape(s: Shape)
  {
    s == MasternodeShape || s == VerificationShape || s == BroadcastShape
  }

  function ContainerWord(s: Shape): string
  {
    match s
    case VectorShape => "vector"
    case ListShape => "list"
    case PairShape => "pair"
    case _ => "map"
  }

  lemma NamesMatchAtMostOneShape(n: string, a: Shape, b: Shape)
    requires Matches(n, a) && Matches(n, b)
    ensures a == b
  {
    FirstChar(n, a);
    FirstChar(n, b);
    if !IsRecordShape(a) && !IsRecordShape(b) {
      ContainerWordAt(n, ContainerWord(a));
      ContainerWordAt(n, ContainerWord(b));
    }
  }

  lemma PrefixAt(n: string, p: string, i: nat)
    requires StartsWith(n, p) && i < |p|
    ensures n[i] == p[i]
  {
    assert n[..|p|][i] == n[i];
  }

  /** Record names begin with 'C', container names with 's'. */
  lemma FirstChar(n: string, s: Shape)
    requires Matches(n, s)
    ensures |n| > 0 && n[0] == (if IsRecordShape(s) then 'C' else 's')
  {
    if !IsRecordShape(s) {
      var x := ContainerWord(s);
      if StartsWith(n, "std::" + x + "<") {
        PrefixAt(n, "std::" + x + "<", 0);
      } else {
        PrefixAt(n, "std::__cxx11::" + x + "<", 0);
      }
    }
  }

  /** The first letter of the container word sits at position 5, or at position 14
      behind the `__cxx11::` namespace; no container word begins with '_'. */
  lemma ContainerWordAt(n: string, x: string)
    requires x in {"vector", "list", "pair", "map"}
    requires IsContainer(n, x)
    ensures |n| > 5
    ensures n[5] != '_' ==> n[5] == x[0]
    ensures n[5] == '_' ==> |n| > 14 && n[14] == x[0]
  {
    if StartsWith(n, "std::" + x + "<") {
      PrefixAt(n, "std::" + x + "<", 5);
    } else {
      PrefixAt(n, "std::__cxx11::" + x + "<", 5);
      PrefixAt(n, "std::__cxx11::" + x + "<", 14);
    }
  }

  /** Only names beginning with 's' (the `std::` containers) and the three record
      names are special. */
  lemma SpecialNames(t: TypeDesc)
    ensures IsSpecial(t) ==> |t.name| > 0 && (t.name[0] == 's' || t.name in {"CMasternode", "CMasternodeVerification", "CMasternodeBroadcast"})
  {
    if IsSpecial(t) {
      FirstChar(t.name, Classify(t));
    }
  }
}
