# Heightmap terrain: a Dafny model

This project models the core of an Angular and Three.js page that turns a
greyscale heightmap image into a wireframe terrain mesh. The image arrives
as decoded canvas pixels: a width, a height and a flat RGBA byte buffer.
`generateTerrain` builds the mesh buffers from it in three passes:

- **Sampling.** Rows `z` are the outer loop and columns `x` the inner loop.
  Each cell sums three bytes into an elevation sample, keeps the running
  maximum `highest`, and pushes the vertex `(x, sample / 90, z)`.
  The byte offsets are the ones the code computes: `(z * height + x + k) * 4`
  for `k = 0, 1, 2`. A read past the end of the buffer is NaN.
- **Colouring.** Each sample gives the level `sample / highest`, rounded to
  three significant digits. Red is the level, blue is `1 - level`, and green
  is twice the level inside the band (0.2, 0.5) and the level otherwise.
  Alpha is 1.
- **Indexing.** Rows `y < width - 1` and columns `x < height - 1` each
  push two triangles over the corners of the cell, with row start
  `width * y`.

`dynamicCamera(x, z)` places the camera at `(x/2, (x+z)/3, z)`, looking at
`(x/2, 0, z/2)`. The texture callback calls it with the image height as `x`
and the image width as `z`.

JavaScript numbers are modelled as `JsNum` (a value or NaN). Samples are
integers and positions and colours are exact reals. Every loop is a Dafny
`method` with loop invariants. Each method is proved equal to a recursive
specification function: `Samples`, `Vertices`, `Highest`, `Colors` and
`Quads`/`Indices`. The properties are lemmas about those functions.

Modules:

- `JsNumbers`: byte reads, addition and division with NaN.
- `Grid`: the visiting order of two nested loops, and row-major offsets.
- `HeightSampler`: the sampling loop.
- `ColorRamp`: the colour loop.
- `IndexBuffer`: the index loops.
- `Camera`: the camera placement.
- `Terrain`: the whole generator.

## Model

| member | source | states |
|---|---|---|
| JsNumbers.Read | src/app/main/main.component.ts:69-71 | `Number(data[i])` is NaN exactly when `i` is past the end of the buffer; otherwise it is a byte in [0, 256) |
| JsNumbers.Add | src/app/main/main.component.ts:70-71 | the sum is NaN exactly when either operand is NaN |
| JsNumbers.Divide | src/app/main/main.component.ts:76 | dividing by the non-zero scale is NaN exactly when the dividend is |
| Grid.ScanOrderLength | src/app/main/main.component.ts:67-68 | the two loops visit `height * width` cells |
| Grid.ScanOrderAt | src/app/main/main.component.ts:67-68 | cell `(z, x)` is visited at position `z * width + x` (row-major order) |
| Grid.ScanOrderAtBase | src/app/main/main.component.ts:67-68 | the same row-major position, with the row start as repeated addition |
| Grid.ScanOrderInside | src/app/main/main.component.ts:67-68 | every visited cell has `z < height` and `x < width` |
| Grid.ScanOrderLast | src/app/main/main.component.ts:67-68 | for a non-empty grid, the last cell visited is `(height - 1, width - 1)` |
| HeightSampler.OffsetIsProduct | src/app/main/main.component.ts:69-71 | the `k`-th read of cell `(z, x)` is at byte `(z * height + x + k) * 4`: the row stride is the height, and `k` is added before scaling by 4 |
| HeightSampler.SampleAtReads | src/app/main/main.component.ts:69-71 | a sample is NaN exactly when its furthest read is past the buffer; otherwise it is the sum of the three bytes read, in [0, 765] |
| HeightSampler.SampleHeights | src/app/main/main.component.ts:66-78 | the sampling loop yields the samples and vertices of all cells in scan order, and the maximum of those samples |
| HeightSampler.SampleRow | src/app/main/main.component.ts:68-77 | the inner loop appends the sample and the vertex of each cell of row `z`, and keeps `highest` the running maximum |
| HeightSampler.HighestIsMax | src/app/main/main.component.ts:64 | `highest` is at least 0, no numeric sample exceeds it, and it is 0 or one of the samples |
| HeightSampler.SamplesAt | src/app/main/main.component.ts:73 | `ys` has one sample per visited cell, and entry `i` is the sample of the `i`-th cell |
| HeightSampler.SamplesInRange | src/app/main/main.component.ts:69-73 | every numeric sample pushed lies in [0, 765] |
| HeightSampler.VerticesAt | src/app/main/main.component.ts:76 | `vertices` holds three numbers per visited cell, and triple `i` is the vertex of the `i`-th cell |
| HeightSampler.SampleOfCell | src/app/main/main.component.ts:67-73 | the samples number `height * width`, and entry `z * width + x` is the sample of cell `(z, x)` |
| HeightSampler.VertexOfCell | src/app/main/main.component.ts:67-76 | vertex `z * width + x` is `(x, sample / 90, z)` |
| HeightSampler.VertexCarriesSample | src/app/main/main.component.ts:73-76 | the y of vertex `i` is sample `i` divided by 90, and is NaN exactly when the sample is |
| HeightSampler.SquareImageNaNCells | src/app/main/main.component.ts:69-71 | in a square image whose buffer holds exactly its pixels, exactly the last two cells of the last row read past the end |
| ColorRamp.Level | src/app/main/main.component.ts:82 | the level is NaN exactly when the sample is NaN or `highest` is 0; it lies in [0, 1] for a sample in [0, highest] and a rounding that keeps [0, 1] |
| ColorRamp.Rgba | src/app/main/main.component.ts:86-98 | red is the level and alpha is 1; red + blue = 1; green is twice the level in (0.2, 0.5) and the level elsewhere; green and blue are NaN exactly when the level is; all four lie in [0, 1] for a level in [0, 1] |
| ColorRamp.ColorBuffer | src/app/main/main.component.ts:81-99 | the colour loop pushes one quadruple per sample, in sample order |
| ColorRamp.ColorsAt | src/app/main/main.component.ts:81-99 | the colour buffer has four entries per sample, and quadruple `i` is the colour of sample `i` |
| ColorRamp.ColorsInUnitCube | src/app/main/main.component.ts:82-98 | every channel is NaN or in [0, 1], every alpha is 1, and red is NaN exactly when the sample is NaN or `highest` is 0 |
| IndexBuffer.Span | src/app/main/main.component.ts:102 | a loop `i < n - 1` runs `n - 1` times, and no times when `n` is 0 |
| IndexBuffer.QuadCorners | src/app/main/main.component.ts:105-111 | the six indices of a cell use exactly its four corners, the two triangles share a diagonal, and neither is degenerate in a grid at least 2 wide |
| IndexBuffer.BuildIndices | src/app/main/main.component.ts:101-113 | the index loops produce the quads of all cells `y < width - 1`, `x < height - 1`, row by row |
| IndexBuffer.BuildRow | src/app/main/main.component.ts:103-112 | the inner loop appends the quad of each cell of row `y`, with row start `width * y` |
| IndexBuffer.QuadsAt | src/app/main/main.component.ts:105-111 | group `i` of six indices is the quad of the `i`-th cell |
| IndexBuffer.IndicesLength | src/app/main/main.component.ts:101-113 | the buffer holds `6 * (width - 1) * (height - 1)` indices, and none when either dimension is below 2 |
| IndexBuffer.IndicesAt | src/app/main/main.component.ts:102-111 | the six indices at `6 * (y * (height - 1) + x)` are the quad with row start `width * y` and column `x` |
| IndexBuffer.IndicesBound | src/app/main/main.component.ts:102-111 | for an image at least 2 by 2, no index exceeds `(width - 1) * width + height - 1` |
| IndexBuffer.LargestIndexPushed | src/app/main/main.component.ts:110 | the last quad pushes `(width - 1) * width + height - 1` |
| IndexBuffer.IndicesInRange | src/app/main/main.component.ts:101-113 | for an image at least 2 by 2, every index is below `width * height` exactly when `width <= height` |
| Camera.DynamicCamera | src/app/main/main.component.ts:137-142 | the camera sits at `(x/2, (x+z)/3, z)` and looks at `(x/2, 0, z/2)` |
| Camera.CameraFor | src/app/main/main.component.ts:155 | the callback's camera has `z` equal to the width and `x` half the height, sits a third of `width + height` up, and looks at ground level halfway along `z` |
| Camera.CameraForExample | src/app/main/main.component.ts:155 | a 16 wide, 32 high image gives `(16, 16, 16)` looking at `(16, 0, 8)`; swapping the arguments would give `(8, 16, 32)` |
| Terrain.ImageSamples | src/app/main/main.component.ts:66-78 | an image yields `height * width` samples |
| Terrain.GenerateTerrain | src/app/main/main.component.ts:55-125 | the geometry's positions, colours and indices are those of the three passes, and hold `3 * height * width`, `4 * height * width` and `6 * Span(width) * Span(height)` numbers, so no indices when either dimension is below 2 |
| Terrain.FlatTerrainLevels | src/app/main/main.component.ts:82 | a zero `highest` means every numeric sample is 0, so a level is never a non-zero sample divided by zero; every numeric sample lies in [0, highest] |
| Terrain.TerrainColorsInUnitCube | src/app/main/main.component.ts:81-99 | every colour channel of the mesh is NaN or in [0, 1], every alpha is 1, and red is NaN exactly when the sample is NaN or `highest` is 0, that is, every numeric sample is 0 |
| Terrain.IndicesAddressVertices | src/app/main/main.component.ts:101-113 | for an image at least 2 by 2, every index names one of the mesh's vertices exactly when `width <= height` |

## Left out

- The Angular component lifecycle, the WebGL renderer, the animation loop and the scene setup: these are framework and DOM calls with no logic of their own.
- Loading the texture, drawing it to a canvas and `getImageData`: the model starts from the decoded `ImageData`, a width, a height and a byte buffer that need not match.
- Building the Three.js `BufferGeometry`, the material and the mesh: the model stops at the three buffers (`Terrain.Geometry`).
- The conversion of positions and colours to `Float32Array`, and all floating-point rounding: arithmetic is exact. `Number(...).toPrecision(3)` is the parameter `round`, and colour bounds are proved for every rounding that keeps [0, 1] inside [0, 1].
- ColorRamp.Level: a non-zero sample divided by a zero `highest` would be Infinity in JavaScript; the model gives NaN whenever `highest` is 0. `Terrain.FlatTerrainLevels` shows that the sampling pass never produces that case.
- `console.log` calls, `scene.rotateY(0)`, and the commented-out colour scheme and index pushes.
- Camera.DynamicCamera: `lookAt` is modelled as the target point only; the rotation Three.js derives from it is not modelled.
- The generator validates nothing and raises no errors: an empty image gives empty buffers, and out-of-range reads give NaN rather than an error.
