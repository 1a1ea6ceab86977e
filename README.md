# PETALO reconstruction wrapper, modelled in Dafny

`PetaloReconstructor` (antea/reco/petalo_reconstruct.py) is the host-side
wrapper around the list-mode MLEM/TOF image reconstruction of the PETALO PET
detector. The object holds the reconstruction configuration. Its `reconstruct`
operation does four things:

1. It checks that the eight per-LOR lists (x, y, z and time of the two endpoints
   of each line of response) have the same length. A mismatch only prints an
   error message.
2. It converts the lists into ctypes float arrays of `ncoinc = len(lor_x1)`
   elements each.
3. It calls the library entry point `MLEM_TOF_Reco`.
4. It unpacks the flat image buffer the library returns into an
   `xdim x ydim x zdim` array. Flat index `ivox` goes to cell
   `(ivox % xdim, (ivox / xdim) % ydim, ivox / (xdim*ydim))`.

Files:

- `voxel_index.dfy` (module `VoxelIndex`): splitting a flat index into a cell
  and flattening a cell back. Proves the two are inverse bijections between
  `[0, xdim*ydim*zdim)` and the grid.
- `lor_input.dfy` (module `LorInput`): the eight lists, the length-mismatch
  condition, and the ctypes array conversion.
- `petalo_reconstruct.dfy` (module `PetaloReconstruct`): the class
  `PetaloReconstructor` with its constructor and `Reconstruct`. The unpacking
  loop in `Reconstruct` runs over a fresh 3D array, and its loop invariant
  says which cells are filled so far.

Modelling choices:

- The values (coordinates, times, voxel intensities) are only copied, so
  they have a generic type `T`. `zero` stands for the 0.0 that fresh ctypes
  and numpy arrays hold.
- The buffer returned by the library is the parameter `img` of `Reconstruct`.
  It must hold at least `nvoxels` values.
- The mismatch check does not abort the call: `Reconstruct` returns `warned`,
  which is true exactly when the message is printed, and carries on.
- What happens after a mismatch is decided by the ctypes conversion at lines
  72-79. `(c_float * ncoinc)(*lst)` builds a zero-filled array, then sets its
  elements one by one. So a list shorter than `lor_x1` is padded with zeros,
  and a list longer than `lor_x1` raises (an index error) before the
  library is called. The code never reads past the end of a list. The model
  follows this code (`CArray`, `ToCArrays`, `Outcome.Raised`).
- `int(ivox / xdim)` divides floats and then truncates. The model uses
  natural-number division, which gives the same result for indices below 2^53.

## Model

| member | source | states |
|---|---|---|
| `PetaloReconstruct.PetaloReconstructor.constructor` | antea/reco/petalo_reconstruct.py:14-26 | after construction `nlines == 1` and `tof` holds, whatever is passed; every other field equals its argument. The defaults are those of the source |
| `PetaloReconstruct.PetaloReconstructor.Reconstruct` | antea/reco/petalo_reconstruct.py:59-120 | `warned` is exactly the mismatch condition, and the call continues after it. The call raises exactly when the conversion does. Otherwise the library receives the configuration fields, `ncoinc = len(lor_x1)` and eight buffers of `ncoinc` elements. The returned fresh array has shape `[xdim, xdim, zdim]`, every cell `(i,j,k)` holds `img[i + xdim*j + xdim*ydim*k]`, and for every `ivox < nvoxels` the cell it splits into holds `img[ivox]` |
| `PetaloReconstruct.CopyOut` | antea/reco/petalo_reconstruct.py:110 | `rimg` has exactly `nvoxels` entries and `rimg[n] == img[n]` for each of them |
| `LorInput.MismatchIffNotSameLength` | antea/reco/petalo_reconstruct.py:60-64 | the printed condition (some later list's length differs from `len(lor_x1)`) holds if and only if the eight lengths are not all pairwise equal |
| `LorInput.CArray` | antea/reco/petalo_reconstruct.py:72 | the ctypes array of `n` elements built from `src` exists exactly when `len(src) <= n`; it starts with `src` and is zero after that; otherwise the index error records both lengths |
| `LorInput.ToCArrays` | antea/reco/petalo_reconstruct.py:72-79 | the eight conversions succeed exactly when no list is longer than `lor_x1`; on success every buffer has `ncoinc` elements and is the ctypes array of its list; on failure the error's capacity is `ncoinc` and its length exceeds it |
| `LorInput.SameLengthCopiesExactly` | antea/reco/petalo_reconstruct.py:59-79 | when all eight lengths agree, the buffers are exactly the given lists |
| `LorInput.MismatchDoesNotAbort` | antea/reco/petalo_reconstruct.py:59-79 | a mismatch in which no list is longer than `lor_x1` still produces eight buffers, all sized by `ncoinc` |
| `LorInput.LongerListRaises` | antea/reco/petalo_reconstruct.py:60-79 | a list longer than `lor_x1` is reported as a mismatch and makes the conversion raise |
| `VoxelIndex.DecomposeInGrid` | antea/reco/petalo_reconstruct.py:115-117 | for every `ivox < xdim*ydim*zdim` the split satisfies `i < xdim`, `j < ydim`, `k < zdim` |
| `VoxelIndex.FlattenDecompose` | antea/reco/petalo_reconstruct.py:115-117 | the split can be inverted: `ivox == i + j*xdim + k*xdim*ydim` |
| `VoxelIndex.DecomposeFlatten` | antea/reco/petalo_reconstruct.py:115-117 | every cell of the grid has a flat index below `xdim*ydim*zdim`, and splitting that index gives the cell back |
| `VoxelIndex.DecomposeInjective` | antea/reco/petalo_reconstruct.py:114-118 | distinct flat indices are split into distinct cells, so no cell is written twice |
| `VoxelIndex.CellVisitedOnce` | antea/reco/petalo_reconstruct.py:114-118 | for every cell and every `ivox < nvoxels`, `ivox` splits into that cell if and only if it is the cell's flat index, so the fill loop writes each cell exactly once |
| `VoxelIndex.DivDiv` | antea/reco/petalo_reconstruct.py:116-117 | dividing by `xdim` and then by `ydim` is dividing by `xdim*ydim`; this links the split's `j` to its `k` |

## Left out

- Loading the shared library (line 29) is foreign I/O. The `libdir` argument is therefore not a constructor parameter.
- Setting `argtypes`/`restype` and calling `MLEM_TOF_Reco` (lines 82-95) is a call into C code that is not part of this model. `Reconstruct` records the arguments of the call (`RecoCall`) and takes its result as the parameter `img`.
- The MLEM/TOF reconstruction itself is implemented in that C library and is not part of this model.
- The `print` on mismatch (line 65) is console I/O. Only its condition is modelled, as the `warned` result.
- The conversion of values to 32-bit floats (lines 72-79) is not modelled, because values have a generic type. The errors ctypes raises for non-numeric elements are not modelled either.
- The floating-point division in `int(ivox / xdim)` (lines 116-117) is modelled as exact natural-number division.
- Negative voxel counts are excluded by the type `nat`. For these, `np.zeros` would raise.
- The 32-bit C integer width of `nlines`, `niterations` and the voxel counts is not modelled.
- The requirement of `Reconstruct` that `img` holds at least `nvoxels` values stands for the library's promise about its result, which cannot be checked from Python.
