/** The commands of the Linux build whose records have a fixed list of fields: which fields the
    recorders of tools/gltrace/gles.c and egl.c write, and which fields the
    replayer of tools/gltrace/retrace.c reads. */
module Opcodes {
  import opened Wire

  const OPC_NONE: word := 0
  const OPC_MARK: word := 1
  const OPC_EOF: word := 0xffffffff

  const OPC_START: word := 100
  const GL_ACTIVE_TEXTURE: word := OPC_START + 0
  const GL_ATTACH_SHADER: word := OPC_START + 1
  const GL_BIND_ATTRIB_LOCATION: word := OPC_START + 2
  const GL_BIND_BUFFER: word := OPC_START + 3
  const GL_BIND_FRAMEBUFFER: word := OPC_START + 4
  const GL_BIND_RENDERBUFFER: word := OPC_START + 5
  const GL_BIND_TEXTURE: word := OPC_START + 6
  const GL_BLEND_COLOR: word := OPC_START + 7
  const GL_BLEND_EQUATION: word := OPC_START + 8
  const GL_BLEND_EQUATION_SEPARATE: word := OPC_START + 9
  const GL_BLEND_FUNC: word := OPC_START + 10
  const GL_BLEND_FUNC_SEPARATE: word := OPC_START + 11
  const GL_BUFFER_DATA: word := OPC_START + 12
  const GL_BUFFER_SUB_DATA: word := OPC_START + 13
  const GL_CHECK_FRAMEBUFFER_STATUS: word := OPC_START + 14
  const GL_CLEAR: word := OPC_START + 15
  const GL_CLEAR_COLOR: word := OPC_START + 16
  const GL_CLEAR_DEPTHF: word := OPC_START + 17
  const GL_CLEAR_STENCIL: word := OPC_START + 18
  const GL_COLOR_MASK: word := OPC_START + 19
  const GL_COMPILE_SHADER: word := OPC_START + 20
  const GL_COMPRESSED_TEX_IMAGE_2D: word := OPC_START + 21
  const GL_COMPRESSED_TEX_SUB_IMAGE_2D: word := OPC_START + 22
  const GL_COPY_TEX_IMAGE_2D: word := OPC_START + 23
  const GL_COPY_TEX_SUB_IMAGE_2D: word := OPC_START + 24
  const GL_CREATE_PROGRAM: word := OPC_START + 25
  const GL_CREATE_SHADER: word := OPC_START + 26
  const GL_CULL_FACE: word := OPC_START + 27
  const GL_DELETE_BUFFERS: word := OPC_START + 28
  const GL_DELETE_FRAMEBUFFERS: word := OPC_START + 29
  const GL_DELETE_PROGRAM: word := OPC_START + 30
  const GL_DELETE_RENDERBUFFERS: word := OPC_START + 31
  const GL_DELETE_SHADER: word := OPC_START + 32
  const GL_DELETE_TEXTURES: word := OPC_START + 33
  const GL_DEPTH_FUNC: word := OPC_START + 34
  const GL_DEPTH_MASK: word := OPC_START + 35
  const GL_DEPTH_RANGEF: word := OPC_START + 36
  const GL_DETACH_SHADER: word := OPC_START + 37
  const GL_DISABLE: word := OPC_START + 38
  const GL_DISABLE_VERTEX_ATTRIB_ARRAY: word := OPC_START + 39
  const GL_DRAW_ARRAYS: word := OPC_START + 40
  const GL_DRAW_ELEMENTS: word := OPC_START + 41
  const GL_ENABLE: word := OPC_START + 42
  const GL_ENABLE_VERTEX_ATTRIB_ARRAY: word := OPC_START + 43
  const GL_FINISH: word := OPC_START + 44
  const GL_FLUSH: word := OPC_START + 45
  const GL_FRAMEBUFFER_RENDERBUFFER: word := OPC_START + 46
  const GL_FRAMEBUFFER_TEXTURE_2D: word := OPC_START + 47
  const GL_FRONT_FACE: word := OPC_START + 48
  const GL_GEN_BUFFERS: word := OPC_START + 49
  const GL_GENERATE_MIPMAP: word := OPC_START + 50
  const GL_GEN_FRAMEBUFFERS: word := OPC_START + 51
  const GL_GEN_RENDERBUFFERS: word := OPC_START + 52
  const GL_GEN_TEXTURES: word := OPC_START + 53
  const GL_GET_ACTIVE_UNIFORM: word := OPC_START + 55
  const GL_GET_ATTACHED_SHADERS: word := OPC_START + 56
  const GL_GET_ATTRIB_LOCATION: word := OPC_START + 57
  const GL_GET_BOOLEANV: word := OPC_START + 58
  const GL_GET_ERROR: word := OPC_START + 60
  const GL_GET_FLOATV: word := OPC_START + 61
  const GL_GET_FRAMEBUFFER_ATTACHMENT_PARAMETERIV: word := OPC_START + 62
  const GL_GET_INTEGERV: word := OPC_START + 63
  const GL_GET_PROGRAMIV: word := OPC_START + 64
  const GL_GET_RENDERBUFFER_PARAMETERIV: word := OPC_START + 66
  const GL_GET_SHADERIV: word := OPC_START + 67
  const GL_GET_STRING: word := OPC_START + 71
  const GL_GET_UNIFORM_LOCATION: word := OPC_START + 76
  const GL_LINK_PROGRAM: word := OPC_START + 89
  const GL_PIXEL_STOREI: word := OPC_START + 90
  const GL_POLYGON_OFFSET: word := OPC_START + 91
  const GL_RENDERBUFFER_STORAGE: word := OPC_START + 94
  const GL_SCISSOR: word := OPC_START + 96
  const GL_SHADER_SOURCE: word := OPC_START + 98
  const GL_TEX_IMAGE_2D: word := OPC_START + 105
  const GL_TEX_PARAMETERI: word := OPC_START + 108
  const GL_TEX_SUB_IMAGE_2D: word := OPC_START + 110
  const GL_UNIFORM_1F: word := OPC_START + 111
  const GL_UNIFORM_1FV: word := OPC_START + 112
  const GL_UNIFORM_1I: word := OPC_START + 113
  const GL_UNIFORM_2F: word := OPC_START + 115
  const GL_UNIFORM_2I: word := OPC_START + 117
  const GL_UNIFORM_3F: word := OPC_START + 119
  const GL_UNIFORM_3I: word := OPC_START + 121
  const GL_UNIFORM_4F: word := OPC_START + 123
  const GL_UNIFORM_4FV: word := OPC_START + 124
  const GL_UNIFORM_4I: word := OPC_START + 125
  const GL_UNIFORM_4IV: word := OPC_START + 126
  const GL_UNIFORM_MATRIX_2FV: word := OPC_START + 127
  const GL_UNIFORM_MATRIX_3FV: word := OPC_START + 128
  const GL_UNIFORM_MATRIX_4FV: word := OPC_START + 129
  const GL_USE_PROGRAM: word := OPC_START + 130
  const GL_VALIDATE_PROGRAM: word := OPC_START + 131
  const GL_VERTEX_ATTRIB_POINTER: word := OPC_START + 140
  const GL_VIEWPORT: word := OPC_START + 141

  const OPC_EGL: word := 700
  const EGL_GET_DISPLAY: word := OPC_EGL + 1
  const EGL_INITIALIZE: word := OPC_EGL + 2
  const EGL_TERMINATE: word := OPC_EGL + 3
  const EGL_QUERY_STRING: word := OPC_EGL + 4
  const EGL_CHOOSE_CONFIG: word := OPC_EGL + 6
  const EGL_GET_CONFIG_ATTRIB: word := OPC_EGL + 7
  const EGL_CREATE_WINDOW_SURFACE: word := OPC_EGL + 8
  const EGL_BIND_API: word := OPC_EGL + 13
  const EGL_SURFACE_ATTRIB: word := OPC_EGL + 18
  const EGL_CREATE_CONTEXT: word := OPC_EGL + 21
  const EGL_DESTROY_CONTEXT: word := OPC_EGL + 22
  const EGL_MAKE_CURRENT: word := OPC_EGL + 23
  const EGL_SWAP_BUFFERS: word := OPC_EGL + 30

  // Enumerants of the OpenGL ES 2.0 and EGL headers.
  const GL_BYTE: word := 0x1400
  const GL_UNSIGNED_BYTE: word := 0x1401
  const GL_SHORT: word := 0x1402
  const GL_UNSIGNED_SHORT: word := 0x1403
  const GL_INT: word := 0x1404
  const GL_UNSIGNED_INT: word := 0x1405
  const GL_FLOAT: word := 0x1406
  const GL_ARRAY_BUFFER: word := 0x8892
  const GL_ELEMENT_ARRAY_BUFFER: word := 0x8893
  const EGL_NONE: word := 0x3038

  /** The primitive that carries a field: putInt, putInt of a GLboolean, putPtr,
      putString, putBytes, putIntPtr, putFloatPtr. */
  datatype Kind = I | Z | P | S | B | N | F

  // Field lists.
  const I1: List<Kind> := Cons(I, Nil)
  const I2: List<Kind> := Cons(I, I1)
  const I3: List<Kind> := Cons(I, I2)
  const I4: List<Kind> := Cons(I, I3)
  const I5: List<Kind> := Cons(I, I4)
  const I8: List<Kind> := Cons(I, Cons(I, Cons(I, I5)))
  const Z1: List<Kind> := Cons(Z, Nil)
  const S1: List<Kind> := Cons(S, Nil)
  const B1: List<Kind> := Cons(B, Nil)
  const I7B: List<Kind> := Cons(I, Cons(I, Cons(I, Cons(I, Cons(I, Cons(I, Cons(I, B1)))))))
  const P2: List<Kind> := Cons(P, Cons(P, Nil))
  const P3: List<Kind> := Cons(P, P2)

  /** The fields that the recorder writes, in its order, floats as their bits. */
  function PutShape(op: word): Option<List<Kind>> {
    if op == OPC_MARK then Some(S1)
    else if op in {GL_FINISH, GL_FLUSH} then Some(Nil)
    else if op in {GL_ACTIVE_TEXTURE, GL_BLEND_EQUATION, GL_CLEAR, GL_CLEAR_DEPTHF, GL_CLEAR_STENCIL, GL_COMPILE_SHADER,
                   GL_CREATE_PROGRAM, GL_CULL_FACE, GL_DELETE_PROGRAM, GL_DELETE_SHADER, GL_DEPTH_FUNC, GL_DISABLE,
                   GL_DISABLE_VERTEX_ATTRIB_ARRAY, GL_ENABLE, GL_ENABLE_VERTEX_ATTRIB_ARRAY, GL_FRONT_FACE,
                   GL_GENERATE_MIPMAP, GL_GET_ERROR, GL_LINK_PROGRAM, GL_USE_PROGRAM, GL_VALIDATE_PROGRAM} then Some(I1)
    else if op in {GL_ATTACH_SHADER, GL_BIND_BUFFER, GL_BIND_FRAMEBUFFER, GL_BIND_RENDERBUFFER, GL_BIND_TEXTURE,
                   GL_BLEND_EQUATION_SEPARATE, GL_BLEND_FUNC, GL_CHECK_FRAMEBUFFER_STATUS, GL_CREATE_SHADER,
                   GL_DEPTH_RANGEF, GL_DETACH_SHADER, GL_PIXEL_STOREI, GL_POLYGON_OFFSET, GL_UNIFORM_1F, GL_UNIFORM_1I,
                   EGL_BIND_API} then Some(I2)
    else if op in {GL_DRAW_ARRAYS, GL_GET_PROGRAMIV, GL_GET_RENDERBUFFER_PARAMETERIV, GL_GET_SHADERIV,
                   GL_TEX_PARAMETERI,
                   GL_UNIFORM_2F, GL_UNIFORM_2I} then Some(I3)
    else if op in {GL_BLEND_COLOR, GL_BLEND_FUNC_SEPARATE, GL_CLEAR_COLOR, GL_FRAMEBUFFER_RENDERBUFFER,
                   GL_GET_FRAMEBUFFER_ATTACHMENT_PARAMETERIV, GL_RENDERBUFFER_STORAGE, GL_SCISSOR, GL_UNIFORM_3F,
                   GL_UNIFORM_3I, GL_VIEWPORT} then Some(I4)
    else if op in {GL_FRAMEBUFFER_TEXTURE_2D, GL_UNIFORM_4F, GL_UNIFORM_4I} then Some(I5)
    else if op in {GL_COPY_TEX_IMAGE_2D, GL_COPY_TEX_SUB_IMAGE_2D} then Some(I8)
    else if op == GL_COLOR_MASK then Some(Cons(Z, Cons(Z, Cons(Z, Z1))))
    else if op == GL_DEPTH_MASK then Some(Z1)
    else if op == GL_GET_BOOLEANV then Some(Cons(I, Z1))
    else if op == GL_BIND_ATTRIB_LOCATION then Some(Cons(I, Cons(I, S1)))
    else if op in {GL_GET_ATTRIB_LOCATION, GL_GET_UNIFORM_LOCATION} then Some(Cons(I, Cons(S, I1)))
    else if op == GL_GET_STRING then Some(Cons(I, S1))
    else if op == GL_BUFFER_DATA then Some(Cons(I, Cons(I, Cons(B, I1))))
    else if op == GL_BUFFER_SUB_DATA then Some(Cons(I, Cons(I, Cons(I, B1))))
    else if op == GL_COMPRESSED_TEX_IMAGE_2D then Some(I7B)
    else if op in {GL_COMPRESSED_TEX_SUB_IMAGE_2D, GL_TEX_IMAGE_2D, GL_TEX_SUB_IMAGE_2D} then Some(Cons(I, I7B))
    else if op in {GL_UNIFORM_1FV, GL_UNIFORM_4FV, GL_UNIFORM_4IV} then Some(Cons(I, Cons(I, B1)))
    else if op in {GL_UNIFORM_MATRIX_2FV, GL_UNIFORM_MATRIX_3FV,
                   GL_UNIFORM_MATRIX_4FV} then Some(Cons(I, Cons(I, Cons(Z, B1))))
    else if op == GL_GET_INTEGERV then Some(Cons(I, Cons(N, Nil)))
    else if op == GL_GET_FLOATV then Some(Cons(I, Cons(F, Nil)))
    else if op == GL_VERTEX_ATTRIB_POINTER then Some(Cons(I, Cons(I, Cons(I, Cons(Z, Cons(I, Cons(P, Nil)))))))
    else if op == EGL_GET_DISPLAY then Some(P2)
    else if op == EGL_INITIALIZE then Some(Cons(P, Cons(N, Cons(N, I1))))
    else if op == EGL_TERMINATE then Some(Cons(P, I1))
    else if op == EGL_QUERY_STRING then Some(Cons(P, Cons(I, S1)))
    else if op == EGL_SURFACE_ATTRIB then Some(Cons(P, Cons(P, I3)))
    else if op in {EGL_DESTROY_CONTEXT, EGL_SWAP_BUFFERS} then Some(Cons(P, Cons(P, I1)))
    else if op == EGL_MAKE_CURRENT then Some(Cons(P, Cons(P, Cons(P, Cons(P, I1)))))
    else None
  }

  /** The fields that the matching case of `process` reads; None for a command that it reports as
      not implemented, that has a layout of its own, or that is among those in APART. */
  function GetShape(op: word): Option<List<Kind>> {
    if op == OPC_MARK then Some(S1)
    else if op in {GL_FINISH, GL_FLUSH} then Some(Nil)
    else if op in {GL_ACTIVE_TEXTURE, GL_BLEND_EQUATION, GL_CLEAR, GL_CLEAR_DEPTHF, GL_CLEAR_STENCIL, GL_COMPILE_SHADER,
                   GL_CULL_FACE, GL_DELETE_PROGRAM, GL_DELETE_SHADER, GL_DEPTH_FUNC, GL_DISABLE} then Some(I1)
    else if op in {GL_DISABLE_VERTEX_ATTRIB_ARRAY, GL_ENABLE, GL_ENABLE_VERTEX_ATTRIB_ARRAY, GL_FRONT_FACE,
                   GL_GENERATE_MIPMAP, GL_LINK_PROGRAM, GL_USE_PROGRAM, GL_VALIDATE_PROGRAM} then Some(I1)
    else if op in {GL_CREATE_PROGRAM, GL_GET_ERROR} then Some(I1)
    else if op in {GL_ATTACH_SHADER, GL_BIND_BUFFER, GL_BIND_FRAMEBUFFER, GL_BIND_RENDERBUFFER, GL_BIND_TEXTURE,
                   GL_BLEND_EQUATION_SEPARATE, GL_BLEND_FUNC, GL_DEPTH_RANGEF, GL_DETACH_SHADER, GL_PIXEL_STOREI,
                   GL_POLYGON_OFFSET, GL_UNIFORM_1F, GL_UNIFORM_1I} then Some(I2)
    else if op in {GL_CHECK_FRAMEBUFFER_STATUS, GL_CREATE_SHADER, EGL_BIND_API} then Some(I2)
    else if op == GL_BIND_ATTRIB_LOCATION then Some(Cons(I, Cons(I, S1)))
    else if op in {GL_BLEND_FUNC_SEPARATE, GL_CLEAR_COLOR, GL_FRAMEBUFFER_RENDERBUFFER,
                   GL_GET_FRAMEBUFFER_ATTACHMENT_PARAMETERIV, GL_RENDERBUFFER_STORAGE, GL_SCISSOR, GL_UNIFORM_3F,
                   GL_VIEWPORT} then Some(I4)
    else if op == GL_BUFFER_DATA then Some(Cons(I, Cons(I, Cons(B, I1))))
    else if op == GL_BUFFER_SUB_DATA then Some(Cons(I, Cons(I, Cons(I, B1))))
    else if op == GL_COLOR_MASK then Some(Cons(Z, Cons(Z, Cons(Z, Z1))))
    else if op == GL_COMPRESSED_TEX_IMAGE_2D then Some(I7B)
    else if op in {GL_COMPRESSED_TEX_SUB_IMAGE_2D, GL_TEX_IMAGE_2D, GL_TEX_SUB_IMAGE_2D} then Some(Cons(I, I7B))
    else if op in {GL_COPY_TEX_IMAGE_2D, GL_COPY_TEX_SUB_IMAGE_2D} then Some(I8)
    else if op == GL_DEPTH_MASK then Some(Z1)
    else if op in {GL_DRAW_ARRAYS, GL_GET_PROGRAMIV, GL_GET_RENDERBUFFER_PARAMETERIV, GL_GET_SHADERIV,
                   GL_TEX_PARAMETERI,
                   GL_UNIFORM_2F} then Some(I3)
    else if op in {GL_FRAMEBUFFER_TEXTURE_2D, GL_UNIFORM_4F} then Some(I5)
    else if op in {GL_GET_ATTRIB_LOCATION, GL_GET_UNIFORM_LOCATION} then Some(Cons(I, Cons(S, I1)))
    else if op == GL_GET_BOOLEANV then Some(Cons(I, Z1))
    else if op == GL_GET_FLOATV then Some(Cons(I, Cons(F, Nil)))
    else if op == GL_GET_INTEGERV then Some(Cons(I, Cons(N, Nil)))
    else if op == GL_GET_STRING then Some(Cons(I, S1))
    else if op in {GL_UNIFORM_1FV, GL_UNIFORM_4FV} then Some(Cons(I, Cons(I, B1)))
    else if op in {GL_UNIFORM_MATRIX_2FV, GL_UNIFORM_MATRIX_3FV,
                   GL_UNIFORM_MATRIX_4FV} then Some(Cons(I, Cons(I, Cons(Z, B1))))
    else if op == GL_VERTEX_ATTRIB_POINTER then Some(Cons(I, Cons(I, Cons(I, Cons(Z, Cons(I, Cons(P, Nil)))))))
    else if op == EGL_GET_DISPLAY then Some(P2)
    else if op == EGL_INITIALIZE then Some(Cons(P, Cons(N, Cons(N, I1))))
    else if op == EGL_QUERY_STRING then Some(Cons(P, Cons(I, S1)))
    else if op == EGL_SURFACE_ATTRIB then Some(Cons(P, Cons(P, I3)))
    else if op == EGL_DESTROY_CONTEXT then Some(Cons(P, Cons(P, I1)))
    else if op == EGL_MAKE_CURRENT then Some(Cons(P, Cons(P, Cons(P, Cons(P, I1)))))
    else if op == EGL_SWAP_BUFFERS then Some(Cons(P, Cons(P, I1)))
    else None
  }

  /** Commands of both sides that this model leaves out. */
  const APART: set<word> := {GL_GET_ACTIVE_UNIFORM, GL_GET_ATTACHED_SHADERS, EGL_GET_CONFIG_ATTRIB}

  predicate IsCounted(op: word) {
    op in {GL_GEN_BUFFERS, GL_GEN_FRAMEBUFFERS, GL_GEN_RENDERBUFFERS, GL_GEN_TEXTURES,
           GL_DELETE_BUFFERS, GL_DELETE_FRAMEBUFFERS, GL_DELETE_RENDERBUFFERS, GL_DELETE_TEXTURES}
  }

  predicate HasAttribs(op: word) {
    op in {EGL_CREATE_CONTEXT, EGL_CREATE_WINDOW_SURFACE}
  }

  /** The commands that are recorded but that the replayer does not implement. */
  const WRITE_ONLY: set<word> :=
    {GL_BLEND_COLOR, GL_UNIFORM_2I, GL_UNIFORM_3I, GL_UNIFORM_4I, GL_UNIFORM_4IV, EGL_TERMINATE}

  /** The replayer reads a recorded command with exactly the fields it was written with, unless it
      does not implement the command at all. */
  lemma ShapesAgree(op: word)
    ensures PutShape(op).Some? ==> GetShape(op) == if op in WRITE_ONLY then None else PutShape(op)
    ensures PutShape(op).None? ==> GetShape(op).None?
  {
  }

  /** glSizeof; None where it gives up and ends the process. */
  function SizeOf(typ: word): (r: Option<nat>)
    ensures r.Some? ==> r.value in {1, 2, 4}
  {
    if typ in {GL_BYTE, GL_UNSIGNED_BYTE} then Some(1)
    else if typ in {GL_SHORT, GL_UNSIGNED_SHORT} then Some(2)
    else if typ in {GL_INT, GL_UNSIGNED_INT, GL_FLOAT} then Some(4)
    else None
  }
}
