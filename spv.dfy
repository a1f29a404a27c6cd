/** The numeric constants of the SPIR-V binary form that the patches read
    and emit: opcodes (section 3.52 of the SPIR-V specification), the
    decorations, storage class, function and selection controls the patches
    use (sections 3.20, 3.7, 3.24 and 3.22), the header layout (section 2.3)
    and the two GLSL.std.450 extended instructions the generated code calls. */
module Spv {
  import opened Words

  const MAGIC_NUMBER: Word := 0x0723_0203
  /** Words before the first instruction: magic, version, generator, bound, schema. */
  const HEADER_LENGTH: nat := 5
  /** Position of the id bound in the header. */
  const BOUND_IDX: nat := 3

  const OP_NOP: HalfWord := 0
  const OP_EXT_INST_IMPORT: HalfWord := 11
  const OP_EXT_INST: HalfWord := 12
  const OP_TYPE_BOOL: HalfWord := 20
  const OP_TYPE_INT: HalfWord := 21
  const OP_TYPE_FLOAT: HalfWord := 22
  const OP_TYPE_VECTOR: HalfWord := 23
  const OP_TYPE_POINTER: HalfWord := 32
  const OP_TYPE_FUNCTION: HalfWord := 33
  const OP_CONSTANT: HalfWord := 43
  const OP_FUNCTION: HalfWord := 54
  const OP_FUNCTION_PARAMETER: HalfWord := 55
  const OP_FUNCTION_END: HalfWord := 56
  const OP_VARIABLE: HalfWord := 59
  const OP_LOAD: HalfWord := 61
  const OP_STORE: HalfWord := 62
  const OP_ACCESS_CHAIN: HalfWord := 65
  const OP_DECORATE: HalfWord := 71
  const OP_COMPOSITE_CONSTRUCT: HalfWord := 80
  const OP_COMPOSITE_EXTRACT: HalfWord := 81
  const OP_BITCAST: HalfWord := 124
  const OP_S_NEGATE: HalfWord := 126
  const OP_IS_NAN: HalfWord := 156
  const OP_IS_INF: HalfWord := 157
  const OP_LOGICAL_AND: HalfWord := 167
  const OP_SELECT: HalfWord := 169
  const OP_I_EQUAL: HalfWord := 170
  const OP_I_NOT_EQUAL: HalfWord := 171
  const OP_S_GREATER_THAN: HalfWord := 173
  const OP_S_GREATER_THAN_EQUAL: HalfWord := 175
  const OP_F_ORD_GREATER_THAN: HalfWord := 186
  const OP_F_ORD_GREATER_THAN_EQUAL: HalfWord := 190
  const OP_SHIFT_RIGHT_LOGICAL: HalfWord := 194
  const OP_BITWISE_AND: HalfWord := 199
  const OP_PHI: HalfWord := 245
  const OP_SELECTION_MERGE: HalfWord := 247
  const OP_LABEL: HalfWord := 248
  const OP_BRANCH: HalfWord := 249
  const OP_BRANCH_CONDITIONAL: HalfWord := 250
  const OP_RETURN_VALUE: HalfWord := 254
  const OP_UNREACHABLE: HalfWord := 255

  const DECORATION_BINDING: Word := 33
  const DECORATION_DESCRIPTOR_SET: Word := 34
  const STORAGE_CLASS_FUNCTION: Word := 7
  const FUNCTION_CONTROL_INLINE: Word := 1
  const SELECTION_CONTROL_NONE: Word := 0

  /** Extended instruction numbers in the GLSL.std.450 instruction set. */
  const GLSL_FABS: Word := 4
  const GLSL_SABS: Word := 5
}
