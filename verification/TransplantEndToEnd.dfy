/** hw1: `transplant -s` piped into `transplant -d`. */
module TransplantEndToEnd {
  import opened FileSystems
  import opened Paths
  import opened TransplantFormat
  import opened TransplantDecoder
  import opened TransplantRoundTrip
  import opened TransplantTrees
  import opened Serializers
  import opened Deserializers

  /** Copies the directory `source` to the fresh directory `target` of another file system. */
  method CopyTree(disk: Disk, source: Path, ghost l: Listing, target: Path, ghost at: Location, files: FileSystem)
    returns (copy: FileSystem)
    requires |source| + 2 <= PATH_MAX && |target| + 2 <= PATH_MAX && 0 !in source && 0 !in target
    requires WellFormed(l) && PathsFit(source, l) && Fits(target, l) && FreshTarget(target, at, files)
    requires source in disk && disk[source].DiskDir? && Mirrors(disk, source, disk[source].names, l)
    ensures copy == Add(MakeDirectory(files, target, 448), Flatten(at, l)) <==> NoEmptyFiles(l) && DirectoriesLast(l)
  {
    var writer := new Serializer(disk, source);
    var _ := writer.Serialize(l);
    assert [] + Encode(Transmission(l), []) == Encode(Transmission(l), []);
    var reader := new Deserializer(writer.output, target, files);
    var _ := reader.Run();
    copy := reader.files;
    RoundTripExact(false, target, at, l, files);
  }
}
