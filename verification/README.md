# img-optimizer-simplified, modelled in Dafny

`main.py` turns a batch of source images into WebP derivatives for the web.
For each source it does the following:

- creates a directory beside the source, named after the source's base name
  without its extension;
- draws one random 8-digit number;
- saves one derivative per size of the selected profile (`lith` or `tys`,
  each with a `small` and a `large` target), named `<number>_<size>.webp`.

Each derivative is produced by `resize_and_crop`. It scales the image so that
it covers the target and then cuts out the centred window of exactly the
target size.

This project models both parts:

- `geometry.dfy` (`Geometry`) covers `resize_and_crop`. It computes the
  resized dimensions and the crop box handed to PIL.
  - The float ratio comparison `tw / w > th / h` becomes `tw * h > th * w`.
  - The truncation `int(h * tw / w)` becomes the floor division `(h * tw) / w`.
  - `ExactResize` transliterates the float code over exact reals, and
    `ResizedMatchesExact` proves the two readings equal.
- `optimizer.dfy` (`Optimizer`) covers `optimize` as a planner. It returns:
  - the `(status, message)` pair;
  - the directories it would create;
  - the writes it would perform, each a directory, a file name and a target
    size.

  The numbers `randint` would draw are a parameter, one per source.
- Supporting modules:
  - `profiles.dfy`: the profile table.
  - `naming.dfy`: the file name scheme and its parser.
  - `decimal.dfy`: Python's `str()` of a natural number.
  - `paths.dfy`: `basename`, `dirname`, `splitext` and `join` with Python's
    `posixpath` semantics.
  - `arith.dfy`: division facts.
  - `wrappers.dfy`: `Option`.

## Model

| member | source | states |
|---|---|---|
| Geometry.ResizedSize | main.py:157-165 | The resized image covers the target on both axes. The axis with the larger ratio equals the target exactly, and ties pin the height. The other axis is the exact scaled length rounded down. |
| Geometry.CenteredCrop | main.py:170-177 | The box is exactly target-sized. It lies inside any image that covers the target. The far margin exceeds the near margin by 0 or 1 pixel. The origin is 0 on an axis that already has the target length. |
| Geometry.ResizeAndCrop | main.py:155-178 | For all positive sizes, the crop is exactly the target size and lies inside the resized image, centred to within one pixel. On the pinned axis nothing is cut (origin 0). |
| Geometry.ProportionalTargetNoCrop | main.py:158-172 | A target with the source's aspect ratio is reached by scaling alone. The resized size equals the target and the box is (0, 0, tw, th). |
| Geometry.RatioComparison | main.py:158-160 | The real-number comparison `tw / w > th / h` holds exactly when `tw * h > th * w`. |
| Geometry.ResizedMatchesExact | main.py:158-165 | The integer resize equals the float code read over exact reals: the ratio choice, and the truncated product of size and ratio. |
| Paths.Basename | main.py:134 | No contract of its own: `BasenameSpec` and `BasenameOfJoin` state it. |
| Paths.Dirname | main.py:135 | No contract of its own: `DirnameAgrees`, `DirnameSpec` and `DirnameOfJoin` state it. |
| Paths.SplitExt | main.py:134 | No contract of its own: `SplitExtAgrees`, `SplitExtSpec` and `SplitExtInverse` state it. |
| Paths.Join | main.py:135 | No contract of its own: `BasenameOfJoin` and `DirnameOfJoin` state that `basename` and `dirname` undo it. |
| Paths.DirnameAgrees | main.py:135 | The length-based `Dirname` equals `posixpath.dirname` as written: the head, right-stripped of separators unless it is empty or made of separators only. |
| Paths.SplitExtAgrees | main.py:134 | The length-based `SplitExt` equals `posixpath.splitext` as written: it cuts at the last dot after the last separator only if a non-dot precedes that dot in the component. |
| Paths.RunOfChars | main.py:134-135 | A slice consists only of `c` exactly when stripping trailing `c` leaves nothing of it. This links the rstrip and all-dots tests to lengths. |
| Paths.SplitExtSpec | main.py:134 | Root followed by extension is the path. A non-empty extension is a dot followed by no dot and no separator. The root's last component then is not all dots. |
| Paths.SplitExtInverse | main.py:134 | Splitting `root + "." + ext` gives back `(root, "." + ext)` when `ext` has no dot or separator and the root's last component is not all dots. |
| Paths.DirnameSpec | main.py:135 | The dirname is the head (everything up to the last separator) without its trailing separators. The exception is a head made only of separators, which stays whole. It is empty exactly when the head is. |
| Paths.BasenameOfJoin | main.py:135 | Joining a non-empty, separator-free name onto a directory and taking the basename gives the name back. |
| Paths.DirnameOfJoin | main.py:135 | Joining a non-empty, separator-free name onto a directory as `dirname` produces it, then taking the dirname, gives the directory back. |
| Paths.LastIndexOfBeforeTail | main.py:134-135 | The last separator of `s + [c] + t`, for a `c`-free `t`, is the one placed at index `|s|`. |
| Optimizer.Stem | main.py:134 | No contract of its own: `StemSpec` states it. |
| Optimizer.OutputDir | main.py:135 | No contract of its own: `OutputDirBesideSource` and `OutputDirIsSource` state it. |
| Optimizer.StemSpec | main.py:134 | The stem of a path with a non-empty basename is a non-empty, separator-free prefix of the basename. |
| Optimizer.OutputDirBesideSource | main.py:134-135 | The output directory's basename is the source's stem, and its dirname is the source's dirname: it sits beside the source. |
| Decimal.NatToString | main.py:138-140 | `str()` of a natural number is a canonical digit string: non-empty, digits only, and no leading zero unless it is `"0"`. |
| Decimal.ParseNatToString | main.py:138-140 | Reading back `str(n)` gives `n`. |
| Decimal.NatToStringParse | main.py:138-140 | Every canonical digit string is `str()` of its value. |
| Decimal.NatToStringLength | main.py:138-140 | A number in `[10^(k-1), 10^k)` is written by `str()` with exactly `k` digits (for `k = 1`, any number below 10). |
| Decimal.NatToStringLengthBounds | main.py:138-140 | The converse of `NatToStringLength`: `str(n)` with `k` digits means `n` is below `10^k`, and at least `10^(k-1)` when `k > 1`. |
| Naming.FileName | main.py:147 | No contract of its own: `FileNameRoundTrip`, `ParseFileNameSound`, `FileNameInjective` and `EightDigitFileName` state it. |
| Naming.FileNameRoundTrip | main.py:147 | `<n>_<key>.webp` parses back to `(n, key)`. |
| Naming.ParseFileNameSound | main.py:147 | Every name the parser accepts is `<n>_<key>.webp` of what it returns. |
| Naming.FileNameInjective | main.py:147 | Two names are equal exactly when their numbers and their keys are. |
| Naming.EightDigitFileName | main.py:138-147 | A number drawn from [10000000, 99999999] gives a name of 8 digits, `_`, the key and `.webp`. |
| Profiles.Lookup | main.py:117-130 | The name is refused exactly when it is not `lith` or `tys`. A known name yields the profile bearing it. |
| Profiles.LookupName | main.py:117-130 | Every profile's name is accepted and resolves back to that profile. |
| Profiles.ImageSizes | main.py:118-127 | Each profile has two entries, `small` then `large`, with the table's sizes. All dimensions are positive, and small is no larger than large on either axis. |
| Optimizer.PlanSource | main.py:143-149 | One source gives one write per size entry, in order. All are in the source's directory and named with that source's one number. |
| Optimizer.AppendGroup | main.py:133-149 | Appending one source's group to a planned batch gives the plan for the batch with that source added: write `x` comes from source `x / k`, entry `x % k`. |
| Optimizer.Optimize | main.py:110-152 | Status and outcome: an unknown profile gives `(1, "Profile not found")` with no directories and no writes. Otherwise the status is 0 and the message is the last source's output directory, or `""` for no sources. |
| Optimizer.PlanBatch | main.py:132-152 | For a known profile's size entries: status 0, one output directory per source in source order, each beside its source and named after its stem, the writes exactly one per source and size entry, and the message the last source's output directory (`""` for no sources). |
| Optimizer.SourceDirs | main.py:133-137 | One output directory per source, in source order. For every source with a non-empty base name, the directory's basename is the source's base name without its extension, and its dirname is the source's dirname, so it sits beside the source (`BesideSources`). |
| Optimizer.PlanWrites | main.py:133-149 | Source by source, write `x` goes into the directory of source `x / k` and is named with that source's number and the key of entry `x % k`; there are `k` writes per source. |
| Optimizer.SameTargetIff | main.py:138-148 | Two planned writes have the same directory and the same name exactly when their sources share output directory and drawn number and they come from the same size entry. |
| Optimizer.NoOverwrite | main.py:138-149 | If no two sources sharing an output directory drew the same number, no two planned writes have the same directory and name. |
| Optimizer.OutputDirIsSource | main.py:134-137 | A source `join(d, name)` whose name has no extension to split off (`img`, `.png`) gets its own path as output directory, so `os.makedirs` is asked to create a directory where the source file is. |
| Optimizer.PlannedNameReadsBack | main.py:138-147 | Every planned name reads back as its source's number and its entry's key, and is 8 digits long before the `_`. |

In the `Optimizer.Optimize` row, for a known profile the method also ensures:

- there is one directory per source, equal to
  `join(dirname(p), splitext(basename(p))[0])`;
- for a source with a non-empty base name, that directory is named after
  the base name without its extension and lies in the source's directory;
- the writes are exactly one per source and size entry;
- each write is named with that source's drawn number.

## Left out

- The PyQt6 window, `set_profile`, the file dialog, `os.startfile` and `main` (main.py:22-107). They are user interface only.
- Filesystem effects are returned as a plan and not performed:
  - `os.makedirs` (main.py:137), returned as the planned directories;
  - the image writes (main.py:149), returned as planned writes, each a
    directory, a file name and a target size;
  - the `print` of each saved path (main.py:150) is not modelled.
- PIL work is not modelled. This means opening and decoding the source, the
  pixel resampling of `resize` and `crop`, and WebP encoding with
  `optimize=True, quality=85`. These are foreign library calls; only the sizes
  and the crop box are modelled. A source that cannot be opened raises in
  Python at main.py:142 and is not modelled.
- `randint(10000000, 99999999)` (main.py:139) is a parameter `draws`, one number per source, with the range as a precondition.
- Geometry.ResizedSize: uses exact arithmetic, whereas the source computes with IEEE-754 doubles. Whenever the exact scaled length is a whole number (every target with the source's aspect ratio is such a case), the rounded ratio times the size can land just below it and `int()` then loses a pixel. For a 1129×1129 source and the 450×450 target, `450 / 1129` is 0.3985828166519043 and `1129 * 0.3985828166519043` is 449.99999999999994, so main.py:164 gives a width of 449. Coverage then fails by one pixel; this is not modelled.
- Geometry.ResizeAndCrop: in the float case above, main.py:171 gives `left = -1` and the box (-1, 0, 449, 450) reaches one column outside the resized image, which PIL fills with padding. The containment clauses hold only for the exact reading.
- Geometry.ProportionalTargetNoCrop: holds for the exact reading only. With floats a proportional target can be resized one pixel short and cropped from -1, as in the 1129×1129 case above.
- Zero-sized images are excluded by the `Positive` precondition of the geometry. There the source would raise `ZeroDivisionError`.
- Paths follow `posixpath`: `/` is the only separator. On Windows, where `os.startfile` exists, Python uses `ntpath`, which also accepts `\` and drive letters; that variant is not modelled.
- Optimizer.Optimize: promises status 0 for every list of paths under a known profile, but `os.makedirs` (main.py:137) can raise instead, and the planner does not model that. This always happens when a source's base name has no extension to split off (`d/img`, or `d/.png`, which the dialog's `*.png` filter at main.py:84 accepts). The output directory is then the source file's own path (`Optimizer.OutputDirIsSource`), and `makedirs` raises `FileExistsError`. An empty path gives the output directory `""`, and `makedirs("")` raises too. Permission and disk errors are not modelled either.
- The paths themselves are not validated. A source whose basename is empty (a path ending in `/`) is planned like any other; the lemmas about the output directory require a non-empty basename.
- The model follows `main.py`, which has no file-name sanitising, no confirmation before overwriting, no pass-through for sources that are already small, no check for undersized sources and no shared output folder per category.
