/** The PETALO reconstruction wrapper: a configuration object whose
    reconstruct operation checks and converts the LOR lists, hands them to
    the list-mode MLEM/TOF reconstruction library, and unpacks the flat image
    buffer the library returns into a 3D voxel array. */
module PetaloReconstruct {
  import opened VoxelIndex
  import opened LorInput

  /** The arguments reconstruct passes to the library's MLEM_TOF_Reco entry
      point, in its order: the configuration, the number of coincidences and
      the eight C arrays. */
  datatype RecoCall<T> = RecoCall(nlines: int, niterations: int, tof: bool,
                                  tofResolution: real, imgSizeXY: real, imgSizeZ: real,
                                  imgNvoxelsXY: nat, imgNvoxelsZ: nat,
                                  ncoinc: nat, buffers: LorLists<T>)

  /** How a reconstruct call ends: ctypes raises while building the C arrays,
      or the 3D image is returned after the library call described. */
  datatype Outcome<T> =
    | Raised(error: CtypesError)
    | Returned(call: RecoCall<T>, image: array3<T>)

  /** `np.array([img[i] for i in range(nvoxels)])`: the first nvoxels values
      of the buffer the library returns. */
  function CopyOut<T>(img: seq<T>, nvoxels: nat): (rimg: seq<T>)
    requires nvoxels <= |img|
    ensures |rimg| == nvoxels
    ensures forall n | 0 <= n < nvoxels :: rimg[n] == img[n]
  {
    seq(nvoxels, n requires 0 <= n < nvoxels => img[n])
  }

  /** A filled image: shape xdim x ydim x zdim, every cell holding the value
      at its flat index i + j*xdim + k*xdim*ydim. */
  ghost predicate Unpacked<T>(a: array3<T>, rimg: seq<T>, xdim: nat, ydim: nat, zdim: nat)
    reads a
  {
    a.Length0 == xdim && a.Length1 == ydim && a.Length2 == zdim
    && |rimg| == xdim * ydim * zdim
    && forall i, j, k | 0 <= i < xdim && 0 <= j < ydim && 0 <= k < zdim ::
         Flatten(Cell(i, j, k), xdim, ydim) < |rimg|
         && a[i, j, k] == rimg[Flatten(Cell(i, j, k), xdim, ydim)]
  }

  class PetaloReconstructor {
    var nlines: int
    var niterations: int
    var tof: bool
    var tofResolution: real
    var imgSizeXY: real
    var imgSizeZ: real
    var imgNvoxelsXY: nat
    var imgNvoxelsZ: nat

    /** Stores the configuration; nlines and tof are fixed whatever is passed. */
    constructor (niterations: int := 1, tofResolution: real := 200.0,
                 imgSizeXY: real := 180.0, imgSizeZ: real := 180.0,
                 imgNvoxelsXY: nat := 60, imgNvoxelsZ: nat := 60)
      ensures this.nlines == 1 && this.tof
      ensures this.niterations == niterations && this.tofResolution == tofResolution
      ensures this.imgSizeXY == imgSizeXY && this.imgSizeZ == imgSizeZ
      ensures this.imgNvoxelsXY == imgNvoxelsXY && this.imgNvoxelsZ == imgNvoxelsZ
    {
      this.nlines := 1;
      this.niterations := niterations;
      this.tof := true;
      this.tofResolution := tofResolution;
      this.imgSizeXY := imgSizeXY;
      this.imgSizeZ := imgSizeZ;
      this.imgNvoxelsXY := imgNvoxelsXY;
      this.imgNvoxelsZ := imgNvoxelsZ;
    }

    /** The number of voxels of the configured image. */
    function NVoxels(): nat
      reads this
    {
      imgNvoxelsXY * imgNvoxelsXY * imgNvoxelsZ
    }

    /** The library call made for converted C arrays. */
    function CallFor<T>(ncoinc: nat, buffers: LorLists<T>): RecoCall<T>
      reads this
    {
      RecoCall(nlines, niterations, tof, tofResolution, imgSizeXY, imgSizeZ,
               imgNvoxelsXY, imgNvoxelsZ, ncoinc, buffers)
    }

    /** Reconstructs an image from the eight LOR lists. `img` stands for the
        flat buffer the reconstruction library returns, `zero` for the value
        0.0 that fills fresh C and numpy arrays. `warned` tells whether the
        length error is printed; the call goes on either way. */
    method Reconstruct<T>(lorX1: seq<T>, lorY1: seq<T>, lorZ1: seq<T>, lorT1: seq<T>,
                          lorX2: seq<T>, lorY2: seq<T>, lorZ2: seq<T>, lorT2: seq<T>,
                          zero: T, img: seq<T>)
      returns (warned: bool, outcome: Outcome<T>)
      requires NVoxels() <= |img|
      ensures var lors := LorLists(lorX1, lorY1, lorZ1, lorT1, lorX2, lorY2, lorZ2, lorT2);
        && warned == lors.Mismatch()
        && (outcome.Raised? <==> ToCArrays(lors, zero).Err?)
        && (outcome.Raised? ==> outcome.error == ToCArrays(lors, zero).error)
        && (outcome.Returned? ==>
              outcome.call == CallFor(|lorX1|, ToCArrays(lors, zero).value)
              && outcome.call.buffers.AllOfLength(|lorX1|))
      ensures outcome.Returned? ==>
        fresh(outcome.image)
        && Unpacked(outcome.image, CopyOut(img, NVoxels()), imgNvoxelsXY, imgNvoxelsXY, imgNvoxelsZ)
      ensures outcome.Returned? ==>
        forall ivox | 0 <= ivox < NVoxels() ::
          imgNvoxelsXY > 0 && InGrid(Decompose(ivox, imgNvoxelsXY, imgNvoxelsXY), imgNvoxelsXY, imgNvoxelsXY, imgNvoxelsZ)
          && var c := Decompose(ivox, imgNvoxelsXY, imgNvoxelsXY);
             outcome.image[c.i, c.j, c.k] == img[ivox]
    {
      // Length check: reported, but not acted on.
      var lors := LorLists(lorX1, lorY1, lorZ1, lorT1, lorX2, lorY2, lorZ2, lorT2);
      var ncoinc := |lorX1|;
      warned := lors.Mismatch();

      // The C arrays, each of ncoinc elements.
      var converted := ToCArrays(lors, zero);
      if converted.Err? {
        return warned, Raised(converted.error);
      }
      var call := CallFor(ncoinc, converted.value);

      var xdim, ydim := imgNvoxelsXY, imgNvoxelsXY;
      var zdim := imgNvoxelsZ;
      var nvoxels := xdim * ydim * zdim;

      var imgArr := new T[xdim, ydim, zdim]((i, j, k) => zero);
      var rimg := CopyOut(img, nvoxels);

      // Fill the 3D image, splitting each flat index into (i, j, k).
      var ivox := 0;
      while ivox < |rimg|
        invariant 0 <= ivox <= |rimg| == nvoxels
        invariant forall i, j, k | 0 <= i < xdim && 0 <= j < ydim && 0 <= k < zdim ::
          imgArr[i, j, k] == if Flatten(Cell(i, j, k), xdim, ydim) < ivox
                             then rimg[Flatten(Cell(i, j, k), xdim, ydim)] else zero
      {
        var w := rimg[ivox];
        DecomposeInGrid(ivox, xdim, ydim, zdim);
        var i := ivox % xdim;
        var j := (ivox / xdim) % ydim;
        var k := ivox / (xdim * ydim);
        FlattenDecompose(ivox, xdim, ydim);
        forall c | InGrid(c, xdim, ydim, zdim)
          ensures c == Cell(i, j, k) <==> Flatten(c, xdim, ydim) == ivox
        {
          CellVisitedOnce(c, xdim, ydim, zdim, ivox);
        }
        imgArr[i, j, k] := w;
        ivox := ivox + 1;
      }

      outcome := Returned(call, imgArr);
      forall i, j, k | 0 <= i < xdim && 0 <= j < ydim && 0 <= k < zdim
        ensures Flatten(Cell(i, j, k), xdim, ydim) < nvoxels
      {
        DecomposeFlatten(Cell(i, j, k), xdim, ydim, zdim);
      }
      forall ivox' | 0 <= ivox' < nvoxels
        ensures xdim > 0 && InGrid(Decompose(ivox', xdim, ydim), xdim, ydim, zdim)
        ensures var c := Decompose(ivox', xdim, ydim); imgArr[c.i, c.j, c.k] == img[ivox']
      {
        DecomposeInGrid(ivox', xdim, ydim, zdim);
        FlattenDecompose(ivox', xdim, ydim);
      }
    }
  }
}
