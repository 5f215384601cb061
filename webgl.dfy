/** The browser objects the texture code touches: uploaded files and a WebGL context, reduced
    to what can be observed without a GPU. */
module WebGl {

  /** A `File` of the file input; the texture code only reads its name. */
  datatype File = File(name: string)

  /** A `WebGLTexture` handle: the serial number of the `createTexture` call that made it and
      the file its image `onload` uploads into it. */
  datatype Texture = Texture(serial: nat, file: File)

  /** A `WebGLRenderingContext`, as a source of fresh texture handles. */
  class Context {
    /** How many textures have been created so far. */
    var created: nat

    constructor ()
      ensures created == 0
    {
      created := 0;
    }

    /** `loadTexture(gl, file)`: `gl.createTexture()` returns a handle that differs from every
        earlier one, and the file's image is bound to it. */
    method LoadTexture(file: File) returns (t: Texture)
      modifies this
      ensures t == Texture(old(created), file) && created == old(created) + 1
    {
      t := Texture(created, file);
      created := created + 1;
    }
  }
}
