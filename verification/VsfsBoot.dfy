/**
 From a directory tree to open files: a disk that holds the image of a layout is mounted, and what its
 paths open and its files hold is what the layout says, path bytes included.
 */
module VsfsBoot {
  import opened VsfsDisk
  import opened VsfsFile
  import opened VsfsRecords
  import opened VsfsTree
  import opened VsfsKept
  import opened VsfsKernel
  import opened VsfsWrite
  import opened VsfsMounted
  import opened VsfsLayout
  import opened VsfsImage
  import opened VsfsRoundTrip

  /** The disk carries this superblock and a file system whose invariant holds of the inodes in `live`. */
  ghost predicate Mountable(d: Disk, sb: Super, live: set<nat>) {
    && |d| > 0 && SuperOf(d[0]) == Ok(sb) && Geometry(sb, d) && sb.nblocks < 0x1_0000_0000
    && Sound(View(d, sb), sb, live)
  }

  lemma RootThere(d: Disk, sb: Super, live: set<nat>)
    requires Mountable(d, sb, live)
    ensures ROOT < sb.ninodes && ROOT < |View(d, sb).inodes|
  {}

  /** `initialize`. */
  method Initialize(dev: BlockDevice, ghost sb: Super, ghost live: set<nat>) returns (r: Result<Vsfs>)
    requires Mountable(dev.disk, sb, live)
    ensures r.Ok? ==> fresh(r.value) && r.value.Valid() && r.value.dev == dev && r.value.sb == sb && r.value.Seen() == Limited(View(dev.disk, sb), live)
    ensures r.Err? ==> r.error == DeviceIO && !dev.reliable
  {
    hide View, Geometry, Sound, SuperOf;
    RootThere(dev.disk, sb, live);
    var m := Mount(dev);
    if m.Err? {
      return Err(m.error);
    }
    var fs := new Vsfs(dev, m.value.0, m.value.1, live);
    r := Ok(fs);
  }

  /** The disk holds the image of a layout. */
  ghost predicate ImageOf(d: Disk, l: Layout) {
    && LayoutOk(l) && l.kind.Directory? && AllocateLayout(l).Some?
    && Geometry(SUPER, d) && Mounts(d) && FsOk(View(d, SUPER), SUPER) && Holds(View(d, SUPER), AllocateLayout(l).value)
  }

  /** The image can be mounted, and the kernel sees all of it. */
  lemma ImageMounts(l: Layout, d: Disk)
    requires ImageOf(d, l)
    ensures Mountable(d, SUPER, View(d, SUPER).inodeBits) && Limited(View(d, SUPER), View(d, SUPER).inodeBits) == View(d, SUPER)
  {
    hide View, Geometry, FsOk, Holds, LayoutOk, AllocateLayout;
  }

  /** What a layout says of a file is what the records say of an inode. */
  ghost predicate Shows(fs: Records, i: nat, l: Layout) {
    && Live(fs, i)
    && match l.kind
       case Directory(_) => fs.inodes[i].ty == DIRECTORY
       case Regular(data) => fs.inodes[i].ty == FILE && fs.inodes[i].sz == |data| && Body(fs, fs.inodes[i]) == data
  }

  lemma BodyIs(d: Disk, i: nat)
    requires Geometry(SUPER, d) && FsOk(View(d, SUPER), SUPER) && Live(View(d, SUPER), i)
    ensures var ino := View(d, SUPER).inodes[i]; FileOk(d, ino) && Contents(d, ino) == Body(View(d, SUPER), ino)
  {
    hide View, Geometry, FileOk, Contents, Body;
    SoundFile(d, SUPER, View(d, SUPER).inodes[i]);
  }

  lemma Reaches(d: Disk, path: seq<Name>)
    requires Geometry(SUPER, d) && FsOk(View(d, SUPER), SUPER) && Nonempty(path) && Resolve(View(d, SUPER), ROOT, path).Ok?
    ensures Live(View(d, SUPER), Resolve(View(d, SUPER), ROOT, path).value)
  {
    ResolveLive(View(d, SUPER), SUPER, ROOT, path);
  }

  /** On the image of a layout every path, as bytes, opens what it leads to in the layout, or fails as it does there. */
  lemma ImagePaths(l: Layout, d: Disk, path: seq<Octet>)
    requires ImageOf(d, l)
    ensures var fs, names := View(d, SUPER), Components(path);
            match Seek([l], names)
            case Err(e) => Resolve(fs, ROOT, names) == Err(e)
            case Ok(m) => Resolve(fs, ROOT, names).Ok? && Shows(fs, Resolve(fs, ROOT, names).value, m)
  {
    hide View, Geometry, FsOk, Holds, LayoutOk, AllocateLayout, Components, Seek, Resolve, FileOk, Contents, Body, Live;
    var names := Components(path);
    PathPlain(path);
    RoundTrip(l, d, names);
    if Seek([l], names).Ok? {
      Reaches(d, names);
      BodyIs(d, Resolve(View(d, SUPER), ROOT, names).value);
    }
  }

  /** Names joined by slashes open the node that these names lead to in the layout. */
  lemma ImageFiles(l: Layout, d: Disk, names: seq<Name>)
    requires ImageOf(d, l) && Plain(names)
    ensures var fs := View(d, SUPER);
            var r := Resolve(fs, ROOT, Components(Joined(names)));
            match Seek([l], names)
            case Err(e) => r == Err(e)
            case Ok(m) => r.Ok? && Shows(fs, r.value, m)
  {
    hide ImageOf, View, Components, Joined, Seek, Resolve, Shows;
    ComponentsJoined(names);
    ImagePaths(l, d, Joined(names));
  }
}
