/** The kinds of operating-system resource that one jail owns. */
module Resources {

  datatype Resource = Namespace | VethPair | HostTable | NetnsDir

  const ALL_RESOURCES: set<Resource> := {Namespace, VethPair, HostTable, NetnsDir}

  lemma AllResourcesListed(res: set<Resource>)
    ensures res <= ALL_RESOURCES
    ensures forall r: Resource :: r in ALL_RESOURCES
  {
    forall r: Resource ensures r in ALL_RESOURCES {
      match r case Namespace => case VethPair => case HostTable => case NetnsDir =>
    }
  }
}
